/** Where physical memory goes between the first instruction and the start of the kernel:
    boot/generic/boot.c, and the hand-over in kernel.c. The twin of the page allocator works in
    bytes here. */
module BootMemory {
  import opened Words
  import opened FreePages

  const MIB := 0x10_0000

  // ---- the two allocators are one ----

  /** c * x, by repeated addition. */
  function Times(c: nat, x: nat): nat {
    if x == 0 then 0 else c + Times(c, x - 1)
  }

  lemma {:induction false} TimesIs(c: nat, x: nat)
    ensures Times(c, x) == c * x
  {
    if x > 0 {
      TimesIs(c, x - 1);
      assert c * x == c * (x - 1) + c;
    }
  }

  lemma {:induction false} TimesPlus(c: nat, x: nat, y: nat)
    ensures Times(c, x + y) == Times(c, x) + Times(c, y)
  {
    if y > 0 {
      TimesPlus(c, x, y - 1);
    }
  }

  lemma TimesMinus(c: nat, x: nat, y: nat)
    requires y <= x
    ensures Times(c, x - y) == Times(c, x) - Times(c, y)
  {
    TimesPlus(c, x - y, y);
  }

  lemma {:induction false} TimesOrder(c: nat, x: nat, y: nat)
    requires c > 0
    ensures Times(c, x) < Times(c, y) <==> x < y
    ensures Times(c, x) == Times(c, y) <==> x == y
    ensures Times(c, 0) == 0
    decreases x
  {
    if x > 0 && y > 0 {
      TimesOrder(c, x - 1, y - 1);
    }
  }

  function Scale(bs: seq<Block>, c: nat): seq<Block> {
    seq(|bs|, i requires 0 <= i < |bs| => ScaleBlock(bs[i], c))
  }

  function ScaleBlock(b: Block, c: nat): Block {
    Block(Times(c, b.base), Times(c, b.size))
  }

  lemma ScaleIs(bs: seq<Block>, c: nat)
    ensures forall i | 0 <= i < |bs| :: Scale(bs, c)[i] == Block(c * bs[i].base, c * bs[i].size)
  {
    forall i | 0 <= i < |bs|
      ensures Scale(bs, c)[i] == Block(c * bs[i].base, c * bs[i].size)
    {
      TimesIs(c, bs[i].base);
      TimesIs(c, bs[i].size);
    }
  }

  lemma {:induction false} RemScales(x: nat, m: nat, c: nat)
    requires m > 0 && c > 0
    ensures Times(c, m) > 0 && Rem(Times(c, x), Times(c, m)) == Times(c, Rem(x, m))
    decreases x
  {
    hide Times;
    TimesOrder(c, 0, m);
    TimesOrder(c, x, m);
    if x >= m {
      RemScales(x - m, m, c);
      TimesMinus(c, x, m);
    }
  }

  lemma MisalignmentScales(x: nat, a: nat, c: nat)
    requires a > 0 && c > 0
    ensures Times(c, a) > 0 && Misalignment(Times(c, x), Times(c, a)) == Times(c, Misalignment(x, a))
    ensures Aligned(Times(c, x), Times(c, a)) <==> Aligned(x, a)
  {
    hide Times;
    RemScales(x, a, c);
    TimesMinus(c, a, Rem(x, a));
    TimesOrder(c, 0, Rem(x, a));
  }

  lemma {:induction false} FirstFitScales(bs: seq<Block>, i: nat, n: nat, a: nat, c: nat)
    requires a > 0 && c > 0 && i <= |bs|
    ensures Times(c, a) > 0 && FirstFit(Scale(bs, c), i, Times(c, n), Times(c, a)) == FirstFit(bs, i, n, a)
    decreases |bs| - i
  {
    hide Times, Aligned;
    TimesOrder(c, 0, a);
    if i < |bs| {
      MisalignmentScales(bs[i].base, a, c);
      TimesOrder(c, bs[i].size, n);
      assert Fits(Scale(bs, c)[i], Times(c, n), Times(c, a)) <==> Fits(bs[i], n, a);
      FirstFitScales(bs, i + 1, n, a, c);
    }
  }

  lemma {:induction false} FirstSplitScales(bs: seq<Block>, i: nat, n: nat, a: nat, c: nat)
    requires a > 0 && c > 0 && i <= |bs|
    ensures Times(c, a) > 0 && FirstSplit(Scale(bs, c), i, Times(c, n), Times(c, a)) == FirstSplit(bs, i, n, a)
    decreases |bs| - i
  {
    hide Times, Misalignment;
    TimesOrder(c, 0, a);
    if i < |bs| {
      MisalignmentScales(bs[i].base, a, c);
      TimesPlus(c, n, Misalignment(bs[i].base, a));
      TimesOrder(c, bs[i].size, n + Misalignment(bs[i].base, a));
      assert Splits(Scale(bs, c)[i], Times(c, n), Times(c, a)) <==> Splits(bs[i], n, a);
      FirstSplitScales(bs, i + 1, n, a, c);
    }
  }

  lemma NeedsScale(bs: seq<Block>, n: nat, a: nat, c: nat, length: nat)
    requires a > 0 && c > 0
    ensures c * a > 0
    ensures NeedsEntry(Scale(bs, c), c * n, c * a) <==> NeedsEntry(bs, n, a)
    ensures ReadsPastEnd(Scale(bs, c), c * n, c * a, length) <==> ReadsPastEnd(bs, n, a, length)
  {
    TimesIs(c, a);
    TimesIs(c, n);
    FirstFitScales(bs, 0, n, a, c);
    FirstSplitScales(bs, 0, n, a, c);
    hide Times, Misalignment;
    var g := FirstSplit(bs, 0, n, a);
    if g < |bs| {
      var mis := Misalignment(bs[g].base, a);
      MisalignmentScales(bs[g].base, a, c);
      TimesOrder(c, bs[g].size, mis);
      TimesPlus(c, mis, n);
      TimesOrder(c, bs[g].size, mis + n);
    }
  }

  lemma TakeScales(bs: seq<Block>, p: nat, n: nat, c: nat)
    requires c > 0 && p < |bs| && n <= bs[p].size
    ensures Times(c, n) <= Times(c, bs[p].size) && Take(Scale(bs, c), p, Times(c, n)) == Scale(Take(bs, p, n), c)
  {
    hide Times;
    TimesOrder(c, bs[p].size, n);
    TimesMinus(c, bs[p].size, n);
    TimesPlus(c, bs[p].base, n);
  }

  lemma SplitScales(bs: seq<Block>, g: nat, a: nat, c: nat)
    requires a > 0 && c > 0 && g < |bs| && bs[g].size >= Misalignment(bs[g].base, a)
    ensures Times(c, a) > 0 && Misalignment(Times(c, bs[g].base), Times(c, a)) <= Times(c, bs[g].size)
    ensures Split(Scale(bs, c), g, Times(c, a)) == Scale(Split(bs, g, a), c)
  {
    hide Times, Misalignment;
    var mis := Misalignment(bs[g].base, a);
    MisalignmentScales(bs[g].base, a, c);
    TimesOrder(c, bs[g].size, mis);
    TimesMinus(c, bs[g].size, mis);
    TimesPlus(c, bs[g].base, mis);
  }

  /** Allocating in bytes is allocating in pages: the boot allocator and the kernel's agree. */
  lemma AllocateScales(bs: seq<Block>, n: nat, a: nat, c: nat)
    requires a > 0 && c > 0
    ensures c * a > 0
    ensures var r, s := Allocate(bs, n, a), Allocate(Scale(bs, c), c * n, c * a);
            && s.free == Scale(r.free, c)
            && s.start == if r.start.Some? then Some(c * r.start.value) else None
  {
    TimesIs(c, a);
    TimesIs(c, n);
    forall x: nat
      ensures Times(c, x) == c * x
    {
      TimesIs(c, x);
    }
    hide Times, Misalignment, Take, Split;
    FirstFitScales(bs, 0, n, a, c);
    FirstSplitScales(bs, 0, n, a, c);
    var p := FirstFit(bs, 0, n, a);
    if p < |bs| {
      TakeScales(bs, p, n, c);
    } else {
      var g := FirstSplit(bs, 0, n, a);
      if g < |bs| {
        var mis := Misalignment(bs[g].base, a);
        MisalignmentScales(bs[g].base, a, c);
        TimesOrder(c, bs[g].size, mis);
        TimesPlus(c, bs[g].base, mis);
        SplitScales(bs, g, a, c);
        if bs[g].size != mis {
          TakeScales(Split(bs, g, a), |bs|, n, c);
        }
      }
    }
  }

  // ---- where the ROM image goes ----

  /** The pages of RAM around the ROM image. */
  function FreeRam(rom: nat, size: nat, top: nat): seq<Block>
    requires rom + size <= top
  {
    OneBlock(0, rom) + OneBlock(rom + size, top - (rom + size))
  }

  lemma FreeRamIsTheRest(rom: nat, size: nat, top: nat)
    requires rom + size <= top
    ensures Pages(FreeRam(rom, size, top)) + multiset(Run(rom, size)) == multiset(Run(0, top))
    ensures NonEmpty(FreeRam(rom, size, top))
  {
    hide Pages, Run;
    var low := OneBlock(0, rom);
    var high := OneBlock(rom + size, top - (rom + size));
    PagesOfOneBlock(0, rom);
    PagesOfOneBlock(rom + size, top - (rom + size));
    PagesOfConcat(low, high);
    RunSplits(0, rom, size);
    RunSplits(0, rom + size, top - (rom + size));
    Regroup(multiset(Run(0, rom)), multiset(Run(rom + size, top - (rom + size))), multiset(Run(rom, size)),
            multiset(Run(0, rom + size)));
  }

  function OneBlock(base: nat, size: nat): seq<Block> {
    if size > 0 then [Block(base, size)] else []
  }

  lemma PagesOfOneBlock(base: nat, size: nat)
    ensures Pages(OneBlock(base, size)) == multiset(Run(base, size))
  {
    if size > 0 {
      PagesOfOne(Block(base, size));
    }
  }

  lemma Regroup(a: multiset<nat>, b: multiset<nat>, c: multiset<nat>, d: multiset<nat>)
    requires a + c == d
    ensures (a + b) + c == d + b
  {
  }

  /** The image can be copied to the top or bottom of RAM without overwriting itself. */
  predicate CopyIsSafe(start: word, sizeOfRom: word, topOfRam: word) {
    start % MIB == 0 || start >= sizeOfRom || start + 2 * sizeOfRom <= topOfRam
  }

  /** From every place in RAM, if and only if RAM is at least three times the image. */
  lemma CopyIsAlwaysSafeIff(sizeOfRom: word, topOfRam: word)
    requires sizeOfRom % MIB == 0 && topOfRam % MIB == 0 && 0 < 2 * sizeOfRom < topOfRam
    ensures (forall start: word | start % 4 == 0 && start + sizeOfRom <= topOfRam :: CopyIsSafe(start, sizeOfRom, topOfRam))
            <==> 3 * sizeOfRom <= topOfRam
  {
    if 3 * sizeOfRom > topOfRam {
      var start, k := sizeOfRom - 4, sizeOfRom / MIB;
      assert start == (k - 1) * MIB + (MIB - 4) && start == (k * 0x4_0000 - 1) * 4;
      ModUnique(k - 1, MIB, MIB - 4, start);
      ModUnique(k * 0x4_0000 - 1, 4, 0, start);
      assert start % MIB != 0 && start % 4 == 0;
      assert !CopyIsSafe(start, sizeOfRom, topOfRam);
    }
  }

  const IMAGE: word := 5 * MIB          // asserted by MMU_enter
  const MINIMUM_RAM: word := 256 * MIB  // of the linker script

  lemma ConfiguredCopyIsSafe(start: word)
    requires start % 4 == 0 && start + IMAGE <= MINIMUM_RAM
    ensures CopyIsSafe(start, IMAGE, MINIMUM_RAM)
  {
    CopyIsAlwaysSafeIff(IMAGE, MINIMUM_RAM);
  }

  /** The words of a stretch of memory, given in bytes. */
  function Stretch(memory: seq<word>, at: nat, size: nat): seq<word>
    requires at / 4 + size / 4 <= |memory|
  {
    memory[at / 4..at / 4 + size / 4]
  }

  /** What a copy upwards makes of an image whose new place is so many words ahead of the old one: if
      it starts inside the image, its first words over and over again. */
  function Copied(image: seq<word>, ahead: int): (r: seq<word>)
    ensures |r| == |image|
  {
    if 0 < ahead < |image| then seq(|image|, (i: nat) requires i < |image| => image[Rem(i, ahead)]) else image
  }

  lemma CopiedInPlace(image: seq<word>)
    ensures Copied(image, 0) == image
  {
  }

  lemma CopiedAt(image: seq<word>, ahead: int, i: nat)
    requires i < |image|
    ensures Copied(image, ahead)[i] == if 0 < ahead <= i then Copied(image, ahead)[i - ahead] else image[i]
  {
  }

  /** Whatever the image holds, it is intact afterwards if and only if its new place does not start
      inside it. */
  lemma CopiedIsIntactIff(n: nat, ahead: int)
    ensures (forall image: seq<word> | |image| == n :: Copied(image, ahead) == image) <==> ahead <= 0 || n <= ahead
  {
    if 0 < ahead < n {
      var image: seq<word> := seq(n, (i: nat) => if i == 0 then 1 else 0);
      CopiedAt(image, ahead, ahead);
      CopiedAt(image, ahead, 0);
      assert Copied(image, ahead)[ahead] != image[ahead];
    }
  }

  /** copy: n words, upwards. */
  method Copy(memory: array<word>, dest: nat, src: nat, n: nat)
    requires dest + n <= memory.Length && src + n <= memory.Length
    modifies memory
    ensures memory[dest..dest + n] == Copied(old(memory[src..src + n]), dest - src)
    ensures memory[..dest] == old(memory[..dest]) && memory[dest + n..] == old(memory[dest + n..])
  {
    ghost var was, made := memory[..], Copied(memory[src..src + n], dest - src);
    hide SomeCopied, Copied;
    SomeCopiedStarts(was, dest, made);
    var i := 0;
    while i < n
      invariant i <= n && SomeCopied(memory[..], was, dest, made, i)
    {
      ghost var now := memory[..];
      CopyStep(now, was, dest, src, made, i);
      memory[dest + i] := memory[src + i];
      assert memory[..] == now[dest + i := now[src + i]];
      i := i + 1;
    }
    SomeCopiedEnds(memory[..], was, dest, made);
  }

  /** The loop of copy after i words, when made is what it makes of the image. */
  ghost predicate SomeCopied(now: seq<word>, was: seq<word>, dest: nat, made: seq<word>, i: nat)
    requires dest + |made| <= |was| && i <= |made|
  {
    && |now| == |was|
    && (forall k | 0 <= k < i :: made[k] == now[dest + k])
    && forall k | 0 <= k < |was| && !(dest <= k < dest + i) :: now[k] == was[k]
  }

  lemma SomeCopiedStarts(was: seq<word>, dest: nat, made: seq<word>)
    requires dest + |made| <= |was|
    ensures SomeCopied(was, was, dest, made, 0)
  {
  }

  lemma CopyStep(now: seq<word>, was: seq<word>, dest: nat, src: nat, made: seq<word>, i: nat)
    requires dest + |made| <= |was| && src + |made| <= |was| && i < |made|
    requires made == Copied(was[src..src + |made|], dest - src) && SomeCopied(now, was, dest, made, i)
    ensures |now| == |was| && SomeCopied(now[dest + i := now[src + i]], was, dest, made, i + 1)
  {
    var image, ahead := was[src..src + |made|], dest - src;
    CopiedAt(image, ahead, i);
    hide Copied;
    assert was[src + i] == image[i];
    assert 0 < ahead <= i ==> made[i - ahead] == now[src + i];
  }

  lemma SomeCopiedEnds(now: seq<word>, was: seq<word>, dest: nat, made: seq<word>)
    requires dest + |made| <= |was| && SomeCopied(now, was, dest, made, |made|)
    ensures |now| == |was| && now[dest..dest + |made|] == made
    ensures now[..dest] == was[..dest] && now[dest + |made|..] == was[dest + |made|..]
  {
  }

  lemma WholeMibs(x: nat, y: nat)
    requires x % MIB == 0 && y % MIB == 0
    ensures x % PAGE == 0 && y % PAGE == 0 && (x >= y ==> (x - y) % MIB == 0)
  {
    var k, m := x / MIB, y / MIB;
    assert x == k * MIB && y == m * MIB;
    ModUnique(256 * k, PAGE, 0, x);
    ModUnique(256 * m, PAGE, 0, y);
    ModUnique(k - m, MIB, 0, x - y);
  }

  function FinalLocation(start: word, sizeOfRom: word, topOfRam: word): int {
    if start % MIB == 0 then start else if start < sizeOfRom then topOfRam - sizeOfRom else 0
  }

  lemma FinalLocationIsGood(start: word, sizeOfRom: word, topOfRam: word)
    requires sizeOfRom % MIB == 0 && topOfRam % MIB == 0 && 0 < 2 * sizeOfRom < topOfRam && start + sizeOfRom <= topOfRam
    ensures var f := FinalLocation(start, sizeOfRom, topOfRam);
            && 0 <= f && f % MIB == 0 && f + sizeOfRom <= topOfRam && f % PAGE == 0
            && sizeOfRom % PAGE == 0 && topOfRam % PAGE == 0
            && (f == start || f + sizeOfRom <= start || start + sizeOfRom <= f <==> CopyIsSafe(start, sizeOfRom, topOfRam))
  {
    WholeMibs(topOfRam, sizeOfRom);
    WholeMibs(FinalLocation(start, sizeOfRom, topOfRam), sizeOfRom);
  }

  lemma WholeWords(f: nat, size: nat, top: nat)
    requires f % PAGE == 0 && size % PAGE == 0 && f + size <= top
    ensures f % 4 == 0 && size % 4 == 0 && 4 * (f / 4 + size / 4) <= top
  {
    var k, m := f / PAGE, size / PAGE;
    assert f == k * PAGE && size == m * PAGE;
    ModUnique(1024 * k, 4, 0, f);
    ModUnique(1024 * m, 4, 0, size);
  }

  /** So the image is intact whatever it holds if and only if the copy is safe. */
  lemma RelocatedIsIntactIff(start: word, sizeOfRom: word, topOfRam: word)
    requires sizeOfRom % MIB == 0 && topOfRam % MIB == 0 && 0 < 2 * sizeOfRom < topOfRam
    requires start % 4 == 0 && start + sizeOfRom <= topOfRam
    ensures var ahead := FinalLocation(start, sizeOfRom, topOfRam) / 4 - start / 4;
            (forall image: seq<word> | |image| == sizeOfRom / 4 :: Copied(image, ahead) == image)
            <==> CopyIsSafe(start, sizeOfRom, topOfRam)
  {
    var f := FinalLocation(start, sizeOfRom, topOfRam);
    FinalLocationIsGood(start, sizeOfRom, topOfRam);
    WholeWords(f, sizeOfRom, topOfRam);
    CopiedIsIntactIff(sizeOfRom / 4, f / 4 - start / 4);
  }

  /** The copy in relocate_as_necessary. */
  method MoveImage(finalLocation: word, start: word, sizeOfRom: word, memory: array<word>)
    requires finalLocation % 4 == 0 && start % 4 == 0 && sizeOfRom % 4 == 0
    requires finalLocation + sizeOfRom <= 4 * memory.Length && start + sizeOfRom <= 4 * memory.Length
    modifies memory
    ensures Stretch(memory[..], finalLocation, sizeOfRom)
            == Copied(old(Stretch(memory[..], start, sizeOfRom)), finalLocation / 4 - start / 4)
    ensures memory[..finalLocation / 4] == old(memory[..finalLocation / 4])
    ensures memory[finalLocation / 4 + sizeOfRom / 4..] == old(memory[finalLocation / 4 + sizeOfRom / 4..])
  {
    hide Copied;
    CopiedInPlace(Stretch(memory[..], start, sizeOfRom));
    if finalLocation != start {
      Copy(memory, finalLocation / 4, start / 4, sizeOfRom / 4);
    }
  }

  /** relocate_as_necessary: the image ends up naturally aligned, in its place or at one end of RAM,
      intact if the copy is safe; the table of RAM blocks holds exactly the pages that are left. */
  method RelocateAsNecessary(start: word, sizeOfRom: word, topOfRam: word, ramBlocks: array<Block>, memory: array<word>)
    returns (finalLocation: word, offset: word)
    requires sizeOfRom % MIB == 0 && topOfRam % MIB == 0 && 0 < 2 * sizeOfRom < topOfRam
    requires start % 4 == 0 && start + sizeOfRom <= topOfRam && 4 * memory.Length >= topOfRam
    requires ramBlocks.Length == 8 && forall i | 0 <= i < 8 :: ramBlocks[i] == Block(0, 0)
    modifies ramBlocks, memory
    ensures finalLocation % MIB == 0 && finalLocation + sizeOfRom <= topOfRam
    ensures start % MIB == 0 ==> finalLocation == start
    ensures Add(start, offset) == finalLocation
    ensures finalLocation == start || finalLocation + sizeOfRom <= start || start + sizeOfRom <= finalLocation
            <==> CopyIsSafe(start, sizeOfRom, topOfRam)
    ensures finalLocation / 4 + sizeOfRom / 4 <= memory.Length && start / 4 + sizeOfRom / 4 <= memory.Length
    ensures finalLocation == FinalLocation(start, sizeOfRom, topOfRam)
    ensures Stretch(memory[..], finalLocation, sizeOfRom)
            == Copied(old(Stretch(memory[..], start, sizeOfRom)), finalLocation / 4 - start / 4)
    ensures CopyIsSafe(start, sizeOfRom, topOfRam) ==>
              Stretch(memory[..], finalLocation, sizeOfRom) == old(Stretch(memory[..], start, sizeOfRom))
    ensures memory[..finalLocation / 4] == old(memory[..finalLocation / 4])
    ensures memory[finalLocation / 4 + sizeOfRom / 4..] == old(memory[finalLocation / 4 + sizeOfRom / 4..])
    ensures Terminated(ramBlocks[..])
    ensures Live(ramBlocks[..]) == Scale(FreeRam(finalLocation / PAGE, sizeOfRom / PAGE, topOfRam / PAGE), PAGE)
  {
    FinalLocationIsGood(start, sizeOfRom, topOfRam);
    WholeWords(FinalLocation(start, sizeOfRom, topOfRam), sizeOfRom, topOfRam);
    finalLocation := start;
    if start % MIB != 0 {
      if start < sizeOfRom {
        finalLocation := topOfRam - sizeOfRom;
      } else {
        finalLocation := 0;
      }
    }
    assert finalLocation == FinalLocation(start, sizeOfRom, topOfRam);
    assert start % MIB == 0 ==> finalLocation == start;
    hide FinalLocation, CopyIsSafe, Live, Tidy, Terminated, Scale, FreeRam, Stretch, Copied;
    FillTable(finalLocation, sizeOfRom, topOfRam, ramBlocks);
    RelocatedIsIntactIff(start, sizeOfRom, topOfRam);
    MoveImage(finalLocation, start, sizeOfRom, memory);
    offset := Sub(finalLocation, start);
  }

  /** The part of relocate_as_necessary that fills in the table of RAM blocks. */
  method FillTable(finalLocation: word, sizeOfRom: word, topOfRam: word, ramBlocks: array<Block>)
    requires finalLocation % PAGE == 0 && sizeOfRom % PAGE == 0 && topOfRam % PAGE == 0
    requires finalLocation + sizeOfRom <= topOfRam
    requires ramBlocks.Length == 8 && forall i | 0 <= i < 8 :: ramBlocks[i] == Block(0, 0)
    modifies ramBlocks
    ensures Terminated(ramBlocks[..])
    ensures Live(ramBlocks[..]) == Scale(FreeRam(finalLocation / PAGE, sizeOfRom / PAGE, topOfRam / PAGE), PAGE)
  {
    var freeBlock := 0;
    if finalLocation > 0 {
      ramBlocks[freeBlock] := Block(0, finalLocation);
      freeBlock := freeBlock + 1;
    }
    if finalLocation + sizeOfRom < topOfRam {
      ramBlocks[freeBlock] := Block(finalLocation + sizeOfRom, topOfRam - (finalLocation + sizeOfRom));
      freeBlock := freeBlock + 1;
    }
    ghost var bs := Scale(FreeRam(finalLocation / PAGE, sizeOfRom / PAGE, topOfRam / PAGE), PAGE);
    ScaleIs(FreeRam(finalLocation / PAGE, sizeOfRom / PAGE, topOfRam / PAGE), PAGE);
    assert |bs| == freeBlock && forall i | 0 <= i < freeBlock :: ramBlocks[i] == bs[i];
    LiveIs(ramBlocks[..], bs);
  }

  // ---- before the MMU is on ----

  function PagesFor(size: nat): nat {
    (size + 0xfff) / PAGE
  }

  /** As many whole pages as the bytes need, and no more. */
  lemma PagesForHold(size: nat)
    ensures size <= PAGE * PagesFor(size) < size + PAGE
  {
  }

  lemma ScaledHas(bs: seq<Block>, x: nat)
    ensures Has(Scale(bs, PAGE), x) <==> Has(bs, x / PAGE)
  {
    ScaleIs(bs, PAGE);
    hide Scale;
    forall i | 0 <= i < |bs|
      ensures PAGE * bs[i].base <= x < PAGE * bs[i].base + PAGE * bs[i].size
              <==> bs[i].base <= x / PAGE < bs[i].base + bs[i].size
    {
    }
  }

  lemma ScaledTaken(before: seq<Block>, after: seq<Block>, start: nat, n: nat)
    requires Taken(before, after, start, n)
    ensures Taken(Scale(before, PAGE), Scale(after, PAGE), start * PAGE, PAGE * n)
  {
    hide Scale, Has;
    forall x: nat
      ensures Has(Scale(before, PAGE), x) <==> Has(before, x / PAGE)
      ensures Has(Scale(after, PAGE), x) <==> Has(after, x / PAGE)
      ensures start <= x / PAGE < start + n <==> start * PAGE <= x < start * PAGE + PAGE * n
    {
      ScaledHas(before, x);
      ScaledHas(after, x);
    }
  }

  lemma BytesTaken(bs: seq<Block>, size: word, alignment: word)
    requires NonEmpty(bs) && alignment % PAGE == 0 && alignment > 0
    ensures alignment / PAGE > 0
    ensures var r := Allocate(bs, PagesFor(size), alignment / PAGE);
            && (r.start.None? ==> r.free == bs)
            && (r.start.Some? && Disjoint(bs) ==>
                  && r.start.value * PAGE % alignment == 0 && size <= PAGE * PagesFor(size) < size + PAGE
                  && Taken(Scale(bs, PAGE), Scale(r.free, PAGE), r.start.value * PAGE, PAGE * PagesFor(size)))
  {
    PagesForHold(size);
    AllocateConserves(bs, PagesFor(size), alignment / PAGE);
    var r, a := Allocate(bs, PagesFor(size), alignment / PAGE), alignment / PAGE;
    if r.start.Some? && Disjoint(bs) {
      AllocateTakes(bs, PagesFor(size), a);
      hide Allocate, Taken, Scale, Disjoint, PagesFor;
      ScaledTaken(bs, r.free, r.start.value, PagesFor(size));
      AlignedInBytes(r.start.value, a);
      assert alignment == a * PAGE;
    }
  }

  lemma AlignedInBytes(start: nat, a: nat)
    requires a > 0 && start % a == 0
    ensures a * PAGE > 0 && start * PAGE % (a * PAGE) == 0
  {
    var k := start / a;
    assert start == k * a;
    assert start * PAGE == k * (a * PAGE);
    ModUnique(k, a * PAGE, 0, start * PAGE);
  }

  /** pre_mmu_allocate_physical_memory. bs is what the table holds, in pages. */
  method PreMmuAllocate(size: word, alignment: word, ramBlocks: array<Block>, ghost bs: seq<Block>) returns (result: word)
    requires size <= 0xffff_f000 && PowerOfTwo(alignment) && alignment % PAGE == 0
    requires PAGE * PagesFor(size) + alignment < WORD_SIZE
    requires NonEmpty(bs) && InMemory(bs)
    requires Terminated(ramBlocks[..]) && Live(ramBlocks[..]) == Scale(bs, PAGE)
    requires alignment / PAGE > 0 ==> !ReadsPastEnd(bs, PagesFor(size), alignment / PAGE, ramBlocks.Length)
    modifies ramBlocks
    ensures Tidy(ramBlocks[..]) && alignment / PAGE > 0
    ensures Terminated(ramBlocks[..])
            <==> !(NeedsEntry(bs, PagesFor(size), alignment / PAGE) && |bs| + 1 == ramBlocks.Length)
    ensures var r := Allocate(bs, PagesFor(size), alignment / PAGE);
            && Live(ramBlocks[..]) == Scale(r.free, PAGE)
            && (if r.start.Some? then result == r.start.value * PAGE != NO_MEMORY else result == NO_MEMORY)
    ensures if result == NO_MEMORY then Live(ramBlocks[..]) == old(Live(ramBlocks[..]))
            else
              Disjoint(bs) ==>
                && result % alignment == 0 && size <= PAGE * PagesFor(size) < size + PAGE
                && Taken(old(Live(ramBlocks[..])), Live(ramBlocks[..]), result, PAGE * PagesFor(size))
  {
    var n := size;
    if size % PAGE != 0 {
      n := (size + 0xfff) / PAGE * PAGE;
    }
    AlignedByMask(0, alignment);
    AllocateScales(bs, PagesFor(size), alignment / PAGE, PAGE);
    AllocateStaysInMemory(bs, PagesFor(size), alignment / PAGE);
    NeedsScale(bs, PagesFor(size), alignment / PAGE, PAGE, ramBlocks.Length);
    BytesTaken(bs, size, alignment);
    hide NeedsEntry, ReadsPastEnd, Allocate, Live, Tidy, Terminated, Disjoint, Taken;
    assert n == PAGE * PagesFor(size) && alignment == PAGE * (alignment / PAGE);
    var start := AllocateRun(ramBlocks, n, alignment);
    result := if start.Some? then start.value else NO_MEMORY;
  }

  /** A request in bytes; the alignment is in pages. */
  datatype ByteRequest = ByteRequest(size: nat, a: nat)

  function InPages(reqs: seq<ByteRequest>): seq<Request> {
    seq(|reqs|, i requires 0 <= i < |reqs| => Request(PagesFor(reqs[i].size), reqs[i].a))
  }

  /** The i-th request has been given the byte. */
  predicate GivesByte(bs: seq<Block>, reqs: seq<ByteRequest>, i: nat, x: nat)
    requires WellAsked(InPages(reqs)) && i < |reqs|
  {
    var r := Allocate(FreeAfter(bs, InPages(reqs)[..i]), PagesFor(reqs[i].size), InPages(reqs)[i].a).start;
    r.Some? && r.value * PAGE <= x < r.value * PAGE + reqs[i].size
  }

  /** Over any sequence of requests in bytes, no byte is given to two of them, and none that is given
      is in a page that is free afterwards. */
  lemma NoByteGivenTwice(bs: seq<Block>, reqs: seq<ByteRequest>, i: nat, j: nat, x: nat)
    requires WellAsked(InPages(reqs)) && NonEmpty(bs) && Disjoint(bs) && i < j < |reqs|
    ensures !(GivesByte(bs, reqs, i, x) && GivesByte(bs, reqs, j, x))
    ensures GivesByte(bs, reqs, i, x) || GivesByte(bs, reqs, j, x) ==> !Has(FreeAfter(bs, InPages(reqs)), x / PAGE)
  {
    NothingGivenTwice(bs, InPages(reqs), i, j);
    HasIsInPages(FreeAfter(bs, InPages(reqs)), x / PAGE);
    ByteIsInRun(bs, reqs, i, x);
    ByteIsInRun(bs, reqs, j, x);
    hide *;
  }

  lemma ByteIsInRun(bs: seq<Block>, reqs: seq<ByteRequest>, i: nat, x: nat)
    requires WellAsked(InPages(reqs)) && i < |reqs|
    ensures GivesByte(bs, reqs, i, x) ==> x / PAGE in Given(bs, InPages(reqs), i)
  {
    PagesForHold(reqs[i].size);
    hide Allocate, FreeAfter, PagesFor;
  }

  /** Everything that is allocated before the MMU runs: the workspaces, the shared memory, a level 1
      table for each of up to four cores, and the pool of level 2 tables. */
  function BootRequests(workspaces: nat, shared: nat): seq<Request> {
    [Request(workspaces, 1), Request(shared, 1), Request(4, 4), Request(16, 16), Request(4, 4), Request(4, 4), Request(4, 4)]
  }

  /** The eight entries of the boot table are enough for all of it, wherever the image is. */
  lemma BootTableIsLongEnough(rom: nat, size: nat, top: nat, workspaces: nat, shared: nat, i: nat)
    requires rom + size <= top && i < |BootRequests(workspaces, shared)|
    ensures var reqs := BootRequests(workspaces, shared);
            && WellAsked(reqs)
            && var before := FreeAfter(FreeRam(rom, size, top), reqs[..i]);
               && |before| < 8 && |Allocate(before, reqs[i].n, reqs[i].a).free| < 8
               && !ReadsPastEnd(before, reqs[i].n, reqs[i].a, 8)
  {
    var reqs := BootRequests(workspaces, shared);
    FiveAreAligned(workspaces, shared);
    ArrayIsLongEnough(FreeRam(rom, size, top), reqs, 8, i);
  }

  lemma FiveAreAligned(workspaces: nat, shared: nat)
    ensures AlignedRequests(BootRequests(workspaces, shared)) == 5
  {
    var reqs := BootRequests(workspaces, shared);
    assert reqs[..7] == reqs;
    for i := 0 to 7
      invariant AlignedRequests(reqs[..i]) == if i < 2 then 0 else i - 2
    {
      assert reqs[..i + 1][..i] == reqs[..i] && reqs[..i + 1][i] == reqs[i];
    }
  }

  // ---- the hand-over ----

  lemma InPagesAgain(bs: seq<Block>, i: nat)
    requires InMemory(bs) && NonEmpty(bs) && i < |bs|
    ensures Scale(bs, PAGE)[i].base / PAGE == bs[i].base <= 0x10_0000
    ensures Scale(bs, PAGE)[i].size > 0 && Scale(bs, PAGE)[i].size / PAGE == bs[i].size <= 0x10_0000
  {
    ScaleIs(bs, PAGE);
    ModUnique(bs[i].base, PAGE, 0, PAGE * bs[i].base);
    ModUnique(bs[i].size, PAGE, 0, PAGE * bs[i].size);
  }

  /** Kernel_start: what is left in the boot table is what the kernel starts with. */
  method RegisterRam(ramBlocks: array<Block>, freeBlocks: array<Block>, ghost bs: seq<Block>)
    requires ramBlocks != freeBlocks
    requires NonEmpty(bs) && InMemory(bs) && Terminated(ramBlocks[..]) && Live(ramBlocks[..]) == Scale(bs, PAGE)
    requires |bs| < freeBlocks.Length && forall i | 0 <= i < freeBlocks.Length :: freeBlocks[i].size == 0
    modifies freeBlocks
    ensures Terminated(freeBlocks[..]) && Live(freeBlocks[..]) == bs
  {
    assert |bs| < ramBlocks.Length && ramBlocks[..|bs|] == Scale(bs, PAGE) && ramBlocks[|bs|].size == 0;
    hide Live, Terminated, Scale, InMemory;
    LiveIs(freeBlocks[..], []);
    var i := 0;
    while ramBlocks[i].size != 0
      invariant i <= |bs| < ramBlocks.Length && ramBlocks[..] == old(ramBlocks[..])
      invariant Terminated(freeBlocks[..]) && Live(freeBlocks[..]) == bs[..i]
      decreases |bs| - i
    {
      assert i < |bs| && ramBlocks[i] == ramBlocks[..|bs|][i];
      InPagesAgain(bs, i);
      KernelAddFreeRam(freeBlocks, ramBlocks[i].base / PAGE, ramBlocks[i].size / PAGE);
      assert bs[..i + 1] == bs[..i] + [bs[i]];
      i := i + 1;
    }
    assert i == |bs| && bs[..i] == bs;
  }

  /** Whatever is asked for before and after the MMU starts, RAM is exactly the ROM image, what was
      given out before, what was given out after, and what is free; no page is two of these. */
  lemma NoPageTwice(rom: nat, size: nat, top: nat, before: seq<Request>, after: seq<Request>)
    requires rom + size <= top && WellAsked(before) && WellAsked(after)
    ensures var ram := FreeRam(rom, size, top);
            var kernel := FreeAfter(ram, before);
            var free := Pages(FreeAfter(kernel, after));
            && multiset(Run(rom, size)) + AllGiven(ram, before) + AllGiven(kernel, after) + free == multiset(Run(0, top))
            && multiset(Run(rom, size)) !! AllGiven(ram, before) !! AllGiven(kernel, after) !! free
            && forall i, j | 0 <= i < |before| && 0 <= j < |after| :: Given(ram, before, i) !! Given(kernel, after, j)
  {
    hide Pages, Run, AllGiven, Given, FreeAfter;
    var ram := FreeRam(rom, size, top);
    var kernel := FreeAfter(ram, before);
    FreeRamIsTheRest(rom, size, top);
    RunConserves(ram, before);
    RunConserves(kernel, after);
    var r, b, a, f := multiset(Run(rom, size)), AllGiven(ram, before), AllGiven(kernel, after), Pages(FreeAfter(kernel, after));
    assert r + b + a + f == multiset(Run(0, top));
    FourDisjoint(r, b, a, f, Run(0, top));
    forall i, j | 0 <= i < |before| && 0 <= j < |after|
      ensures Given(ram, before, i) !! Given(kernel, after, j)
    {
      OneGivenIsCounted(ram, before, i);
      OneGivenIsCounted(kernel, after, j);
      PartsDisjoint(Given(ram, before, i), Given(kernel, after, j), b, a);
    }
  }

  lemma PartsDisjoint(s: set<nat>, t: set<nat>, b: multiset<nat>, a: multiset<nat>)
    requires multiset(s) <= b && multiset(t) <= a && b !! a
    ensures s !! t
  {
    assert forall x | x in s :: x in multiset(s) && x in b;
    assert forall x | x in t :: x in multiset(t) && x in a;
  }

  lemma FourDisjoint(a: multiset<nat>, b: multiset<nat>, c: multiset<nat>, d: multiset<nat>, all: set<nat>)
    requires a + b + c + d == multiset(all)
    ensures a !! b !! c !! d
  {
    forall x: nat
      ensures a[x] + b[x] + c[x] + d[x] <= 1
    {
      assert multiset(all)[x] <= 1;
    }
  }
}
