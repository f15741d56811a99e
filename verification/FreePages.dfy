/** The allocator of physical memory: an array of free blocks, ended by one of size zero, that is
    searched, split and compacted in place (memory/simple/memory_manager.c, and its twin in
    boot/generic/boot.c). Sizes and addresses are in pages here, in bytes in the twin. */
module FreePages {
  import opened Words

  datatype Block = Block(base: nat, size: nat)

  // ---- what allocation means ----

  predicate Aligned(base: nat, a: nat)
    requires a > 0
  {
    Rem(base, a) == 0
  }

  /** As the kernel computes it: a whole alignment, not zero, for an aligned base. */
  function Misalignment(base: nat, a: nat): (m: nat)
    requires a > 0
    ensures 0 < m <= a
  {
    a - Rem(base, a)
  }

  predicate Fits(b: Block, n: nat, a: nat)
    requires a > 0
  {
    Aligned(b.base, a) && b.size >= n
  }

  predicate Splits(b: Block, n: nat, a: nat)
    requires a > 0
  {
    b.size >= n + Misalignment(b.base, a)
  }

  /** The first block from the i-th on whose start will do. */
  function FirstFit(bs: seq<Block>, i: nat, n: nat, a: nat): (p: nat)
    requires a > 0 && i <= |bs|
    ensures i <= p <= |bs|
    ensures forall j | i <= j < p :: !Fits(bs[j], n, a)
    ensures p < |bs| ==> Fits(bs[p], n, a)
    decreases |bs| - i
  {
    if i == |bs| || Fits(bs[i], n, a) then i else FirstFit(bs, i + 1, n, a)
  }

  /** The first block from the i-th on that can be cut at an alignment. */
  function FirstSplit(bs: seq<Block>, i: nat, n: nat, a: nat): (g: nat)
    requires a > 0 && i <= |bs|
    ensures i <= g <= |bs|
    ensures forall j | i <= j < g :: !Splits(bs[j], n, a)
    ensures g < |bs| ==> Splits(bs[g], n, a)
    decreases |bs| - i
  {
    if i == |bs| || Splits(bs[i], n, a) then i else FirstSplit(bs, i + 1, n, a)
  }

  function Split(bs: seq<Block>, g: nat, a: nat): seq<Block>
    requires a > 0 && g < |bs| && bs[g].size >= Misalignment(bs[g].base, a)
  {
    var mis := Misalignment(bs[g].base, a);
    bs[g := Block(bs[g].base, mis)] + [Block(bs[g].base + mis, bs[g].size - mis)]
  }

  /** n pages are taken from the start of the p-th block, which goes if nothing is left of it. */
  function Take(bs: seq<Block>, p: nat, n: nat): seq<Block>
    requires p < |bs| && n <= bs[p].size
  {
    if bs[p].size == n then bs[..p] + bs[p + 1..] else bs[p := Block(bs[p].base + n, bs[p].size - n)]
  }

  datatype Allocation = Allocation(start: Option<nat>, free: seq<Block>)

  function Allocate(bs: seq<Block>, n: nat, a: nat): Allocation
    requires a > 0
  {
    var p := FirstFit(bs, 0, n, a);
    if p < |bs| then Allocation(Some(bs[p].base), Take(bs, p, n))
    else
      var g := FirstSplit(bs, 0, n, a);
      if g == |bs| then Allocation(None, bs)
      else
        var mis := Misalignment(bs[g].base, a);
        if bs[g].size == mis then Allocation(None, bs) // only if n is 0
        else Allocation(Some(bs[g].base + mis), Take(Split(bs, g, a), |bs|, n))
  }

  // ---- conservation ----

  function Run(start: nat, n: nat): (s: set<nat>)
    ensures forall x :: x in s <==> start <= x < start + n
    decreases n
  {
    if n == 0 then {} else {start} + Run(start + 1, n - 1)
  }

  /** Every page that is in some block, as often as it is in one. */
  ghost function Pages(bs: seq<Block>): multiset<nat> {
    if bs == [] then multiset{} else multiset(Run(bs[0].base, bs[0].size)) + Pages(bs[1..])
  }

  predicate NonEmpty(bs: seq<Block>) {
    forall i | 0 <= i < |bs| :: bs[i].size > 0
  }

  lemma RunSplits(start: nat, m: nat, n: nat)
    ensures multiset(Run(start, m)) + multiset(Run(start + m, n)) == multiset(Run(start, m + n))
  {
    assert Run(start, m + n) == Run(start, m) + Run(start + m, n);
    assert Run(start, m) !! Run(start + m, n);
  }

  lemma {:induction false} PagesOfConcat(bs: seq<Block>, cs: seq<Block>)
    ensures Pages(bs + cs) == Pages(bs) + Pages(cs)
  {
    if bs == [] {
      assert bs + cs == cs;
    } else {
      assert (bs + cs)[1..] == bs[1..] + cs;
      PagesOfConcat(bs[1..], cs);
    }
  }

  lemma PagesOfOne(b: Block)
    ensures Pages([b]) == multiset(Run(b.base, b.size))
  {
    assert [b][1..] == [];
  }

  lemma PagesAt(bs: seq<Block>, p: nat)
    requires p < |bs|
    ensures Pages(bs) == Pages(bs[..p]) + multiset(Run(bs[p].base, bs[p].size)) + Pages(bs[p + 1..])
  {
    hide Run, Pages;
    assert bs == bs[..p] + ([bs[p]] + bs[p + 1..]);
    PagesOfConcat(bs[..p], [bs[p]] + bs[p + 1..]);
    PagesOfConcat([bs[p]], bs[p + 1..]);
    PagesOfOne(bs[p]);
  }

  lemma PagesUpdate(bs: seq<Block>, p: nat, b: Block)
    requires p < |bs|
    ensures Pages(bs[p := b]) + multiset(Run(bs[p].base, bs[p].size)) == Pages(bs) + multiset(Run(b.base, b.size))
  {
    hide Run, Pages;
    PagesAt(bs, p);
    PagesAt(bs[p := b], p);
    assert bs[p := b][..p] == bs[..p] && bs[p := b][p + 1..] == bs[p + 1..];
  }

  lemma Cancel(a: multiset<nat>, b: multiset<nat>, c: multiset<nat>, d: multiset<nat>, e: multiset<nat>)
    requires a + b == c + d && e + d == b
    ensures a + e == c
  {
    forall x: nat
      ensures a[x] + e[x] == c[x]
    {
      assert (a + b)[x] == (c + d)[x] && (e + d)[x] == b[x];
    }
  }

  lemma TakeConserves(bs: seq<Block>, p: nat, n: nat)
    requires p < |bs| && n <= bs[p].size && NonEmpty(bs)
    ensures Pages(Take(bs, p, n)) + multiset(Run(bs[p].base, n)) == Pages(bs)
    ensures NonEmpty(Take(bs, p, n))
  {
    hide Pages, Run;
    if bs[p].size == n {
      PagesAt(bs, p);
      PagesOfConcat(bs[..p], bs[p + 1..]);
    } else {
      PagesUpdate(bs, p, Block(bs[p].base + n, bs[p].size - n));
      RunSplits(bs[p].base, n, bs[p].size - n);
      Cancel(Pages(Take(bs, p, n)), multiset(Run(bs[p].base, bs[p].size)), Pages(bs),
             multiset(Run(bs[p].base + n, bs[p].size - n)), multiset(Run(bs[p].base, n)));
    }
  }

  lemma SplitConserves(bs: seq<Block>, g: nat, a: nat)
    requires a > 0 && g < |bs| && bs[g].size > Misalignment(bs[g].base, a)
    ensures Pages(Split(bs, g, a)) == Pages(bs)
  {
    hide Pages, Run;
    var mis := Misalignment(bs[g].base, a);
    var low, cut := Block(bs[g].base, mis), Block(bs[g].base + mis, bs[g].size - mis);
    PagesUpdate(bs, g, low);
    PagesOfConcat(bs[g := low], [cut]);
    PagesOfOne(cut);
    RunSplits(bs[g].base, mis, cut.size);
    Cancel(Pages(bs[g := low]), multiset(Run(bs[g].base, bs[g].size)), Pages(bs),
           multiset(Run(low.base, mis)), multiset(Run(cut.base, cut.size)));
  }

  lemma SplitIsAligned(bs: seq<Block>, g: nat, a: nat)
    requires a > 0 && g < |bs| && bs[g].size > Misalignment(bs[g].base, a) && NonEmpty(bs)
    ensures NonEmpty(Split(bs, g, a)) && Aligned(Split(bs, g, a)[|bs|].base, a)
  {
    RemAdd(bs[g].base, Misalignment(bs[g].base, a), a);
  }

  /** An allocated run is aligned; it was free, and what is free afterwards is exactly the rest. */
  lemma AllocateConserves(bs: seq<Block>, n: nat, a: nat)
    requires a > 0 && NonEmpty(bs)
    ensures var r := Allocate(bs, n, a);
            && NonEmpty(r.free)
            && (r.start.None? ==> r.free == bs)
            && (r.start.Some? ==>
                  Aligned(r.start.value, a) && Pages(r.free) + multiset(Run(r.start.value, n)) == Pages(bs))
  {
    hide Pages, Run, Rem;
    var p := FirstFit(bs, 0, n, a);
    if p < |bs| {
      TakeConserves(bs, p, n);
    } else {
      var g := FirstSplit(bs, 0, n, a);
      if g < |bs| && bs[g].size > Misalignment(bs[g].base, a) {
        SplitConserves(bs, g, a);
        SplitIsAligned(bs, g, a);
        TakeConserves(Split(bs, g, a), |bs|, n);
      }
    }
  }

  // ---- the search fails only if it must ----

  /** Some n consecutive pages of the block start at a multiple of a. */
  ghost predicate HoldsAlignedRun(b: Block, n: nat, a: nat)
    requires a > 0
  {
    exists x: nat :: Aligned(x, a) && b.base <= x && x + n <= b.base + b.size
  }

  lemma {:induction false} NextAligned(base: nat, x: nat, a: nat)
    requires a > 0 && base <= x && Aligned(x, a)
    ensures x == base || Aligned(base, a) || x >= base + Misalignment(base, a)
    decreases x
  {
    if x >= a && base >= a {
      NextAligned(base - a, x - a, a);
    }
  }

  lemma HoldsIffFitsOrSplits(b: Block, n: nat, a: nat)
    requires a > 0
    ensures HoldsAlignedRun(b, n, a) <==> Fits(b, n, a) || (Splits(b, n, a) && !Aligned(b.base, a))
  {
    RemAdd(b.base, Misalignment(b.base, a), a);
    if Fits(b, n, a) {
      assert Aligned(b.base, a) && b.base <= b.base && b.base + n <= b.base + b.size;
    } else if Splits(b, n, a) && !Aligned(b.base, a) {
      var x := b.base + Misalignment(b.base, a);
      assert Aligned(x, a) && b.base <= x && x + n <= b.base + b.size;
    }
    if HoldsAlignedRun(b, n, a) {
      var x: nat :| Aligned(x, a) && b.base <= x && x + n <= b.base + b.size;
      NextAligned(b.base, x, a);
    }
  }

  /** A request for at least one page fails exactly when no one block holds an aligned run of that
      length, although the search takes an aligned base to be misaligned by a whole alignment. */
  lemma FailsIffNothingFits(bs: seq<Block>, n: nat, a: nat)
    requires a > 0 && n > 0
    ensures Allocate(bs, n, a).start.None? <==> forall i | 0 <= i < |bs| :: !HoldsAlignedRun(bs[i], n, a)
  {
    forall i | 0 <= i < |bs|
      ensures HoldsAlignedRun(bs[i], n, a) <==> Fits(bs[i], n, a) || (Splits(bs[i], n, a) && !Aligned(bs[i].base, a))
    {
      HoldsIffFitsOrSplits(bs[i], n, a);
    }
    var p := FirstFit(bs, 0, n, a);
    var g := FirstSplit(bs, 0, n, a);
    if p == |bs| && g < |bs| {
      assert !Fits(bs[g], n, a);
    }
  }

  ghost predicate FailsOnlyIfNothingFits(bs: seq<Block>, n: nat, a: nat)
    requires a > 0
  {
    Allocate(bs, n, a).start.None? <==> forall i | 0 <= i < |bs| :: !HoldsAlignedRun(bs[i], n, a)
  }

  /** Nothing is asked for, no block is aligned, and the first to reach an alignment ends there. */
  predicate EndsAtAlignment(bs: seq<Block>, n: nat, a: nat)
    requires a > 0
  {
    var g := FirstSplit(bs, 0, n, a);
    n == 0 && FirstFit(bs, 0, n, a) == |bs| && g < |bs| && bs[g].size == Misalignment(bs[g].base, a)
  }

  /** For requests of any size, this is the only case in which the search fails without need. */
  lemma FailureIsRightIff(bs: seq<Block>, n: nat, a: nat)
    requires a > 0
    ensures FailsOnlyIfNothingFits(bs, n, a) <==> !EndsAtAlignment(bs, n, a)
  {
    forall i | 0 <= i < |bs|
      ensures HoldsAlignedRun(bs[i], n, a) <==> Fits(bs[i], n, a) || (Splits(bs[i], n, a) && !Aligned(bs[i].base, a))
    {
      HoldsIffFitsOrSplits(bs[i], n, a);
    }
    var p, g := FirstFit(bs, 0, n, a), FirstSplit(bs, 0, n, a);
    if p == |bs| && g < |bs| {
      assert !Fits(bs[g], n, a);
    }
    hide HoldsAlignedRun, Rem;
  }

  /** For no pages at all it can fail although a block holds an aligned page. */
  lemma EmptyRequestCanFail()
    ensures var bs := [Block(1, 3), Block(5, 7)];
            Allocate(bs, 0, 4).start.None? && HoldsAlignedRun(bs[1], 0, 4)
  {
    var bs := [Block(1, 3), Block(5, 7)];
    assert !Fits(bs[0], 0, 4) && !Fits(bs[1], 0, 4);
    assert FirstFit(bs, 2, 0, 4) == FirstFit(bs, 1, 0, 4) == FirstFit(bs, 0, 0, 4) == 2;
    assert Misalignment(1, 4) == 3 && FirstSplit(bs, 0, 0, 4) == 0;
    assert Aligned(8, 4) && 5 <= 8 && 8 + 0 <= 5 + 7;
  }

  // ---- whole runs ----

  datatype Request = Request(n: nat, a: nat)

  predicate WellAsked(reqs: seq<Request>) {
    forall i | 0 <= i < |reqs| :: reqs[i].a > 0
  }

  /** The free blocks after a sequence of requests. */
  function FreeAfter(bs: seq<Block>, reqs: seq<Request>): seq<Block>
    requires WellAsked(reqs)
  {
    if reqs == [] then bs
    else Allocate(FreeAfter(bs, reqs[..|reqs| - 1]), reqs[|reqs| - 1].n, reqs[|reqs| - 1].a).free
  }

  /** What the i-th request was given. */
  function Given(bs: seq<Block>, reqs: seq<Request>, i: nat): set<nat>
    requires WellAsked(reqs) && i < |reqs|
  {
    var r := Allocate(FreeAfter(bs, reqs[..i]), reqs[i].n, reqs[i].a).start;
    if r.Some? then Run(r.value, reqs[i].n) else {}
  }

  ghost function AllGiven(bs: seq<Block>, reqs: seq<Request>): multiset<nat>
    requires WellAsked(reqs)
  {
    if reqs == [] then multiset{}
    else AllGiven(bs, reqs[..|reqs| - 1]) + multiset(Given(bs, reqs, |reqs| - 1))
  }

  /** Free pages and allocated pages together are always exactly the pages there were. */
  lemma {:induction false} RunConserves(bs: seq<Block>, reqs: seq<Request>)
    requires WellAsked(reqs) && NonEmpty(bs)
    ensures Pages(FreeAfter(bs, reqs)) + AllGiven(bs, reqs) == Pages(bs)
    ensures NonEmpty(FreeAfter(bs, reqs))
  {
    if reqs != [] {
      var before := reqs[..|reqs| - 1];
      RunConserves(bs, before);
      AllocateConserves(FreeAfter(bs, before), reqs[|reqs| - 1].n, reqs[|reqs| - 1].a);
    }
  }

  lemma AllGivenSplits(bs: seq<Block>, reqs: seq<Request>, i: nat)
    requires WellAsked(reqs) && i < |reqs|
    ensures var before := reqs[..|reqs| - 1];
            && AllGiven(bs, reqs) == AllGiven(bs, before) + multiset(Given(bs, reqs, |reqs| - 1))
            && (i < |before| ==> Given(bs, before, i) == Given(bs, reqs, i))
  {
    hide Allocate;
    var before := reqs[..|reqs| - 1];
    if i < |before| {
      assert before[..i] == reqs[..i];
    }
  }

  lemma {:induction false} GivenIsCounted(bs: seq<Block>, reqs: seq<Request>, i: nat, j: nat)
    requires WellAsked(reqs) && i < j < |reqs|
    ensures multiset(Given(bs, reqs, i)) + multiset(Given(bs, reqs, j)) <= AllGiven(bs, reqs)
  {
    hide Given, AllGiven;
    var before := reqs[..|reqs| - 1];
    AllGivenSplits(bs, reqs, i);
    AllGivenSplits(bs, reqs, j);
    if j == |reqs| - 1 {
      OneGivenIsCounted(bs, before, i);
    } else {
      GivenIsCounted(bs, before, i, j);
    }
  }

  lemma {:induction false} OneGivenIsCounted(bs: seq<Block>, reqs: seq<Request>, i: nat)
    requires WellAsked(reqs) && i < |reqs|
    ensures multiset(Given(bs, reqs, i)) <= AllGiven(bs, reqs)
  {
    hide Given, AllGiven;
    AllGivenSplits(bs, reqs, i);
    if i < |reqs| - 1 {
      OneGivenIsCounted(bs, reqs[..|reqs| - 1], i);
    }
  }

  /** The blocks do not overlap. */
  ghost predicate Disjoint(bs: seq<Block>) {
    forall x :: Pages(bs)[x] <= 1
  }

  /** The page, or byte, is in some block. */
  predicate Has(bs: seq<Block>, x: nat) {
    exists i | 0 <= i < |bs| :: bs[i].base <= x < bs[i].base + bs[i].size
  }

  /** What has gone between before and after is exactly n from the start on. */
  ghost predicate Taken(before: seq<Block>, after: seq<Block>, start: nat, n: nat) {
    && (forall x: nat :: Has(before, x) <==> Has(after, x) || start <= x < start + n)
    && forall x | start <= x < start + n :: !Has(after, x)
  }

  lemma {:induction false} HasIsInPages(bs: seq<Block>, x: nat)
    ensures Has(bs, x) <==> x in Pages(bs)
  {
    if bs != [] {
      HasIsInPages(bs[1..], x);
      assert Has(bs[1..], x) ==> Has(bs, x) by {
        if Has(bs[1..], x) {
          var i :| 0 <= i < |bs| - 1 && bs[1..][i].base <= x < bs[1..][i].base + bs[1..][i].size;
          assert bs[i + 1] == bs[1..][i];
        }
      }
      if Has(bs, x) {
        var i :| 0 <= i < |bs| && bs[i].base <= x < bs[i].base + bs[i].size;
        assert i > 0 ==> bs[1..][i - 1] == bs[i];
      }
    }
  }

  lemma FitsIs(b: Block, n: nat, a: nat)
    requires a > 0
    ensures Fits(b, n, a) <==> b.base % a == 0 && b.size >= n
    ensures Misalignment(b.base, a) == a - b.base % a
  {
    RemIsMod(b.base, a);
  }

  /** The pages are the first ones of the first block that starts aligned and is large enough. */
  lemma AllocateTakesFirstFit(bs: seq<Block>, n: nat, a: nat, k: nat)
    requires a > 0 && k < |bs| && bs[k].base % a == 0 && bs[k].size >= n
    requires forall i | 0 <= i < k :: bs[i].base % a != 0 || bs[i].size < n
    ensures Allocate(bs, n, a).start == Some(bs[k].base)
    ensures Allocate(bs, n, a).free
            == bs[..k] + (if bs[k].size == n then [] else [Block(bs[k].base + n, bs[k].size - n)]) + bs[k + 1..]
  {
    var p := FirstFit(bs, 0, n, a);
    hide Fits, FirstFit;
    FitsIs(bs[k], n, a);
    if p < |bs| {
      FitsIs(bs[p], n, a);
    }
    assert p == k;
  }

  /** Without such a block, they start at the first alignment inside the first block that reaches so
      far; what is below stays in its place, and what is above goes to the end. */
  lemma AllocateCutsFirst(bs: seq<Block>, n: nat, a: nat, k: nat)
    requires a > 0 && n > 0 && k < |bs| && bs[k].size >= a - bs[k].base % a + n
    requires forall i | 0 <= i < |bs| :: bs[i].base % a != 0 || bs[i].size < n
    requires forall i | 0 <= i < k :: bs[i].size < a - bs[i].base % a + n
    ensures var below := a - bs[k].base % a;
            var above := bs[k].size - below - n;
            && Allocate(bs, n, a).start == Some(bs[k].base + below)
            && Allocate(bs, n, a).free
               == bs[..k] + [Block(bs[k].base, below)] + bs[k + 1..]
                  + (if above == 0 then [] else [Block(bs[k].base + below + n, above)])
  {
    var p, g := FirstFit(bs, 0, n, a), FirstSplit(bs, 0, n, a);
    hide Fits, FirstFit, FirstSplit, Misalignment;
    if p < |bs| {
      FitsIs(bs[p], n, a);
    }
    FitsIs(bs[k], n, a);
    if g < |bs| {
      FitsIs(bs[g], n, a);
    }
    assert p == |bs| && g == k;
  }

  /** What is allocated was free, and is not free any more; nothing else changes hands. */
  lemma AllocateTakes(bs: seq<Block>, n: nat, a: nat)
    requires a > 0 && NonEmpty(bs) && Disjoint(bs)
    ensures var r := Allocate(bs, n, a);
            && Disjoint(r.free)
            && (r.start.Some? ==> r.start.value % a == 0 && Taken(bs, r.free, r.start.value, n))
  {
    AllocateConserves(bs, n, a);
    hide Allocate;
    var r := Allocate(bs, n, a);
    if r.start.Some? {
      RemIsMod(r.start.value, a);
      PagesTaken(bs, r.free, r.start.value, n);
    }
  }

  lemma PagesTaken(before: seq<Block>, after: seq<Block>, start: nat, n: nat)
    requires Pages(after) + multiset(Run(start, n)) == Pages(before) && Disjoint(before)
    ensures Disjoint(after) && Taken(before, after, start, n)
  {
    hide Pages, Has, Run;
    forall x: nat
      ensures Has(before, x) <==> Has(after, x) || start <= x < start + n
      ensures start <= x < start + n ==> !Has(after, x)
      ensures Pages(after)[x] <= 1
    {
      PageTaken(before, after, start, n, x);
    }
  }

  lemma PageTaken(before: seq<Block>, after: seq<Block>, start: nat, n: nat, x: nat)
    requires Pages(after) + multiset(Run(start, n)) == Pages(before) && Pages(before)[x] <= 1
    ensures Has(before, x) <==> Has(after, x) || start <= x < start + n
    ensures start <= x < start + n ==> !Has(after, x)
    ensures Pages(after)[x] <= 1
  {
    HasIsInPages(before, x);
    HasIsInPages(after, x);
    hide Has, Pages;
    assert (Pages(after) + multiset(Run(start, n)))[x] == Pages(after)[x] + multiset(Run(start, n))[x];
  }

  /** Over any sequence of requests no page is given out twice, and no page given out is free. */
  lemma NothingGivenTwice(bs: seq<Block>, reqs: seq<Request>, i: nat, j: nat)
    requires WellAsked(reqs) && NonEmpty(bs) && Disjoint(bs) && i < j < |reqs|
    ensures Given(bs, reqs, i) !! Given(bs, reqs, j)
    ensures forall x | x in Given(bs, reqs, i) + Given(bs, reqs, j) :: x !in Pages(FreeAfter(bs, reqs)) && x in Pages(bs)
    ensures Disjoint(FreeAfter(bs, reqs))
  {
    RunConserves(bs, reqs);
    GivenIsCounted(bs, reqs, i, j);
    var f, g, a := Pages(FreeAfter(bs, reqs)), AllGiven(bs, reqs), Pages(bs);
    var gi, gj := Given(bs, reqs, i), Given(bs, reqs, j);
    forall x
      ensures f[x] + g[x] == a[x] <= 1
      ensures multiset(gi)[x] + multiset(gj)[x] <= g[x]
    {
      assert (f + g)[x] == f[x] + g[x];
      assert (multiset(gi) + multiset(gj))[x] <= g[x];
    }
    forall x | x in gi + gj
      ensures x !in f && x in a && !(x in gi && x in gj)
    {
      assert f[x] + g[x] == a[x] <= 1;
      assert multiset(gi)[x] + multiset(gj)[x] <= g[x];
    }
  }

  // ---- the array ----

  /** The entries before the first of size zero. */
  function Live(s: seq<Block>): (bs: seq<Block>)
    ensures |bs| <= |s| && bs == s[..|bs|] && NonEmpty(bs)
    ensures |bs| < |s| ==> s[|bs|].size == 0
  {
    if s == [] || s[0].size == 0 then [] else [s[0]] + Live(s[1..])
  }

  /** No entry after the first of size zero is in use. */
  predicate Tidy(s: seq<Block>) {
    forall i | |Live(s)| <= i < |s| :: s[i].size == 0
  }

  /** The array is a prefix of blocks, ended by a size of zero. */
  predicate Terminated(s: seq<Block>) {
    Tidy(s) && |Live(s)| < |s|
  }

  lemma {:induction false} LiveIs(s: seq<Block>, bs: seq<Block>)
    requires bs <= s && NonEmpty(bs) && forall i | |bs| <= i < |s| :: s[i].size == 0
    ensures Live(s) == bs && Tidy(s)
  {
    if bs == [] {
      assert s == [] || s[0].size == 0;
    } else {
      assert forall i | 0 <= i < |s| - 1 :: s[1..][i] == s[i + 1];
      LiveIs(s[1..], bs[1..]);
    }
  }

  /** A live entry is overwritten by another one. */
  lemma LiveUpdate(s: seq<Block>, i: nat, b: Block)
    requires Tidy(s) && i < |Live(s)| && b.size > 0
    ensures Live(s[i := b]) == Live(s)[i := b] && Tidy(s[i := b])
  {
    LiveIs(s[i := b], Live(s)[i := b]);
  }

  /** The terminator is overwritten; it may have been the only one. */
  lemma LiveAppend(s: seq<Block>, b: Block)
    requires Terminated(s)
    ensures var r := s[|Live(s)| := b];
            Live(r) == Live(s) + (if b.size > 0 then [b] else []) && Tidy(r)
  {
    LiveIs(s[|Live(s)| := b], Live(s) + if b.size > 0 then [b] else []);
  }

  method IsAligned(b: nat, a: nat) returns (r: bool)
    requires PowerOfTwo(a)
    ensures a > 0 && r == Aligned(b, a)
  {
    AlignedByMask(b, a);
    r := 0 == BitAnd(b, a - 1);
  }

  method MisalignmentOf(b: nat, a: nat) returns (m: nat)
    requires PowerOfTwo(a)
    ensures a > 0 && m == Misalignment(b, a)
  {
    AlignedByMask(b, a);
    m := a - BitAnd(b, a - 1);
  }

  /** The first loop of the search. */
  method FindFit(blocks: array<Block>, n: nat, a: nat) returns (p: nat)
    requires PowerOfTwo(a) && Terminated(blocks[..])
    ensures a > 0 && p == FirstFit(Live(blocks[..]), 0, n, a)
  {
    AlignedByMask(0, a);
    ghost var bs := Live(blocks[..]);
    p := 0;
    while blocks[p].size != 0
      invariant p <= |bs| < blocks.Length && FirstFit(bs, 0, n, a) == FirstFit(bs, p, n, a)
      decreases |bs| - p
    {
      assert p < |bs| && blocks[p] == bs[p];
      var aligned := IsAligned(blocks[p].base, a);
      if aligned && blocks[p].size >= n {
        return;
      }
      p := p + 1;
    }
    assert p == |bs|;
  }

  /** The source adds on words. That decides whether a block can be cut, for every block, if and only
      if the sum of size and alignment is one. */
  lemma WrappedSumDecidesIff(n: word, a: word)
    requires a > 0
    ensures (forall b: Block | b.size < WORD_SIZE :: b.size >= Wrap(n + Misalignment(b.base, a)) <==> Splits(b, n, a))
            <==> n + a < WORD_SIZE
  {
    if n + a < WORD_SIZE {
      forall b: Block | b.size < WORD_SIZE
        ensures b.size >= Wrap(n + Misalignment(b.base, a)) <==> Splits(b, n, a)
      {
        ModUnique(0, WORD_SIZE, n + Misalignment(b.base, a), n + Misalignment(b.base, a));
      }
    } else {
      var b := Block(0, WORD_SIZE - 1);
      assert Misalignment(0, a) == a && !Splits(b, n, a);
    }
  }

  /** The second loop of the search. */
  method FindSplit(blocks: array<Block>, n: nat, a: nat) returns (big: nat)
    requires PowerOfTwo(a) && Terminated(blocks[..]) && n + a < WORD_SIZE
    ensures a > 0 && big == FirstSplit(Live(blocks[..]), 0, n, a)
  {
    AlignedByMask(0, a);
    ghost var bs := Live(blocks[..]);
    big := 0;
    while blocks[big].size != 0
      invariant big <= |bs| < blocks.Length && FirstSplit(bs, 0, n, a) == FirstSplit(bs, big, n, a)
      decreases |bs| - big
    {
      assert big < |bs| && blocks[big] == bs[big];
      var mis := MisalignmentOf(blocks[big].base, a);
      if blocks[big].size >= Wrap(n + mis) {
        return;
      }
      big := big + 1;
    }
    assert big == |bs|;
  }

  /** The p-th and later entries have stayed, those from the gap on have moved down. */
  ghost predicate Closed(now: seq<Block>, was: seq<Block>, gap: nat, p: nat) {
    && |now| == |was| && gap < p < |was|
    && (forall i {:trigger now[i]} | 0 <= i < |was| && !(gap <= i < p) :: now[i] == was[i])
    && (forall i {:trigger now[i]} | gap <= i < p :: now[i] == was[i + 1])
  }

  lemma ClosedIs(now: seq<Block>, was: seq<Block>, gap: nat, bs: seq<Block>)
    requires gap < |bs| < |was| && NonEmpty(bs) && Closed(now, was, gap, |bs|)
    requires forall i | 0 <= i < |bs| && i != gap :: was[i] == bs[i]
    requires forall i | |bs| <= i < |was| :: was[i].size == 0
    ensures Live(now) == bs[..gap] + bs[gap + 1..] && Terminated(now)
  {
    LiveIs(now, bs[..gap] + bs[gap + 1..]);
  }

  /** The loop that closes the gap left by an entry that has become empty. */
  method Compact(blocks: array<Block>, gap: nat, ghost bs: seq<Block>)
    requires gap < |bs| < blocks.Length && blocks[gap].size == 0 && NonEmpty(bs)
    requires forall i | 0 <= i < |bs| && i != gap :: blocks[i] == bs[i]
    requires forall i | |bs| <= i < blocks.Length :: blocks[i].size == 0
    modifies blocks
    ensures Live(blocks[..]) == bs[..gap] + bs[gap + 1..] && Terminated(blocks[..])
  {
    hide Live, Terminated;
    ghost var was := blocks[..];
    blocks[gap] := blocks[gap + 1];
    var p := gap + 1;
    while blocks[p].size != 0
      invariant p <= |bs| && Closed(blocks[..], was, gap, p)
      decreases |bs| - p
    {
      assert blocks[..][p] == was[p];
      blocks[p] := blocks[p + 1];
      p := p + 1;
    }
    assert blocks[..][p] == was[p] && p == |bs|;
    ClosedIs(blocks[..], was, gap, bs);
  }

  lemma LiveParts(s: seq<Block>)
    requires Tidy(s)
    ensures NonEmpty(Live(s)) && |Live(s)| <= |s| && s[..|Live(s)|] == Live(s)
    ensures forall i | |Live(s)| <= i < |s| :: s[i].size == 0
  {
  }

  /** n units are taken from the start of the p-th entry. */
  method TakeFrom(blocks: array<Block>, p: nat, n: nat)
    requires Tidy(blocks[..]) && p < |Live(blocks[..])| && n <= blocks[p].size
    requires n == blocks[p].size ==> Terminated(blocks[..])
    modifies blocks
    ensures Live(blocks[..]) == Take(old(Live(blocks[..])), p, n) && Tidy(blocks[..])
  {
    ghost var was, bs := blocks[..], Live(blocks[..]);
    LiveParts(was);
    TakeIs(bs, p, n);
    assert n == blocks[p].size ==> |bs| < blocks.Length;
    hide *;
    assert forall i | 0 <= i < |bs| :: blocks[i] == was[..|bs|][i];
    blocks[p] := Block(blocks[p].base + n, blocks[p].size - n);
    if blocks[p].size == 0 {
      Compact(blocks, p, bs);
    } else {
      LiveUpdate(was, p, blocks[p]);
      assert blocks[..] == was[p := blocks[p]];
    }
  }

  lemma TakeIs(bs: seq<Block>, p: nat, n: nat)
    requires p < |bs| && n <= bs[p].size
    ensures bs[p].size == n ==> Take(bs, p, n) == bs[..p] + bs[p + 1..]
    ensures bs[p].size > n ==> Take(bs, p, n) == bs[p := Block(bs[p].base + n, bs[p].size - n)]
  {
  }

  /** What cutting the entry makes of the array; nothing is cut off an entry that ends there. */
  predicate Cut(was: seq<Block>, now: seq<Block>, big: nat, a: nat)
    requires a > 0 && big < |Live(was)| && Live(was)[big].size >= Misalignment(Live(was)[big].base, a)
  {
    var bs := Live(was);
    && |now| == |was| && Tidy(now)
    && if bs[big].size == Misalignment(bs[big].base, a) then Live(now) == bs else Live(now) == Split(bs, big, a)
  }

  lemma LiveCut(s: seq<Block>, big: nat, low: Block, high: Block)
    requires Terminated(s) && big < |Live(s)| && low.size > 0
    ensures var r := s[big := low][|Live(s)| := high];
            Tidy(r) && Live(r) == Live(s)[big := low] + if high.size > 0 then [high] else []
  {
    hide Live, Tidy;
    LiveUpdate(s, big, low);
    LiveAppend(s[big := low], high);
  }

  lemma SplitIs(bs: seq<Block>, big: nat, a: nat)
    requires a > 0 && big < |bs| && bs[big].size >= Misalignment(bs[big].base, a)
    ensures var mis := Misalignment(bs[big].base, a);
            var low, high := Block(bs[big].base, mis), Block(bs[big].base + mis, bs[big].size - mis);
            if high.size == 0 then bs[big := low] == bs else Split(bs, big, a) == bs[big := low] + [high]
  {
  }

  lemma CutIs(was: seq<Block>, now: seq<Block>, big: nat, a: nat, low: Block, high: Block)
    requires a > 0 && big < |Live(was)| && Live(was)[big].size >= Misalignment(Live(was)[big].base, a)
    requires var b, mis := Live(was)[big], Misalignment(Live(was)[big].base, a);
             low == Block(b.base, mis) && high == Block(b.base + mis, b.size - mis)
    requires |now| == |was| && Tidy(now) && Live(now) == Live(was)[big := low] + if high.size > 0 then [high] else []
    ensures Cut(was, now, big, a)
  {
    hide Live, Tidy, Misalignment, Split;
    SplitIs(Live(was), big, a);
  }

  /** The entry is cut at an alignment: what is above it is moved to the terminator. */
  method SplitAt(blocks: array<Block>, p: nat, big: nat, a: nat)
    requires PowerOfTwo(a) && a > 0 && Terminated(blocks[..]) && big < |Live(blocks[..])| == p
    requires Live(blocks[..])[big].size >= Misalignment(Live(blocks[..])[big].base, a)
    modifies blocks
    ensures Cut(old(blocks[..]), blocks[..], big, a)
  {
    ghost var was := blocks[..];
    assert p < |was| && was[big] == Live(was)[big];
    hide *;
    var mis := MisalignmentOf(blocks[big].base, a);
    blocks[p] := Block(blocks[big].base + mis, blocks[big].size - mis);
    blocks[big] := Block(blocks[big].base, mis);
    LiveCut(was, big, blocks[big], blocks[p]);
    assert blocks[..] == was[big := blocks[big]][p := blocks[p]];
    CutIs(was, blocks[..], big, a, blocks[big], blocks[p]);
  }

  /** The search ends with a split, which takes one entry more. */
  predicate NeedsEntry(bs: seq<Block>, n: nat, a: nat)
    requires a > 0
  {
    var g := FirstSplit(bs, 0, n, a);
    FirstFit(bs, 0, n, a) == |bs| && g < |bs| && bs[g].size != Misalignment(bs[g].base, a)
  }

  /** The split overwrites the only terminator, and its upper part is taken whole: the loop that
      closes the gap reads the word after the array. */
  predicate ReadsPastEnd(bs: seq<Block>, n: nat, a: nat, length: nat)
    requires a > 0
  {
    var g := FirstSplit(bs, 0, n, a);
    NeedsEntry(bs, n, a) && |bs| + 1 == length && bs[g].size == Misalignment(bs[g].base, a) + n
  }

  lemma AllocateIs(bs: seq<Block>, n: nat, a: nat)
    requires a > 0
    ensures var p, g, r := FirstFit(bs, 0, n, a), FirstSplit(bs, 0, n, a), Allocate(bs, n, a);
            if p < |bs| then bs[p].size >= n && r == Allocation(Some(bs[p].base), Take(bs, p, n)) && |r.free| <= |bs|
            else if !NeedsEntry(bs, n, a) then
              r == Allocation(None, bs) && (g < |bs| ==> bs[g].size == Misalignment(bs[g].base, a))
            else
              var s, size := Split(bs, g, a), bs[g].size - Misalignment(bs[g].base, a);
              && g < |bs| && size >= n && |s| == |bs| + 1 && s[|bs|].size == size
              && r == Allocation(Some(s[|bs|].base), Take(s, |bs|, n))
              && |r.free| == if size == n then |bs| else |bs| + 1
  {
  }

  /** The array is searched, split and compacted as Allocate says. It loses its terminator exactly
      if the search needs an entry and only the terminator is left. */
  method AllocateRun(blocks: array<Block>, n: nat, a: nat) returns (start: Option<nat>)
    requires PowerOfTwo(a) && Terminated(blocks[..]) && n + a < WORD_SIZE
    requires a > 0 ==> !ReadsPastEnd(Live(blocks[..]), n, a, blocks.Length)
    modifies blocks
    ensures a > 0 && Tidy(blocks[..])
    ensures Allocation(start, Live(blocks[..])) == Allocate(old(Live(blocks[..])), n, a)
    ensures var bs := old(Live(blocks[..]));
            Terminated(blocks[..]) <==> !(NeedsEntry(bs, n, a) && |bs| + 1 == blocks.Length)
  {
    ghost var was, bs := blocks[..], Live(blocks[..]);
    var p := FindFit(blocks, n, a);
    AllocateIs(bs, n, a);
    LiveParts(was);
    assert |bs| < blocks.Length;
    hide Allocate, Misalignment, Split, Take, Live, Tidy, Aligned, Fits, Splits, NonEmpty;
    assert forall i | 0 <= i < |bs| :: blocks[i] == was[..|bs|][i];
    if blocks[p].size == 0 {
      assert p == |bs|;
      var big := FindSplit(blocks, n, a);
      if blocks[big].size != 0 {
        SplitAt(blocks, p, big, a);
      }
    }
    if blocks[p].size != 0 {
      LiveParts(blocks[..]);
      assert p < |Live(blocks[..])| && blocks[p] == blocks[..|Live(blocks[..])|][p];
      start := Some(blocks[p].base);
      TakeFrom(blocks, p, n);
    } else {
      start := None;
    }
  }

  // ---- how many entries are enough ----

  /** How many of the requests ask for more than the alignment of a page. */
  function AlignedRequests(reqs: seq<Request>): nat {
    if reqs == [] then 0 else AlignedRequests(reqs[..|reqs| - 1]) + if reqs[|reqs| - 1].a > 1 then 1 else 0
  }

  /** A request without an alignment never needs a split, and no other one adds two entries. */
  lemma AllocateAddsOne(bs: seq<Block>, n: nat, a: nat)
    requires a > 0
    ensures NeedsEntry(bs, n, a) ==> a > 1
    ensures |Allocate(bs, n, a).free| <= |bs| + if NeedsEntry(bs, n, a) then 1 else 0
  {
    AllocateIs(bs, n, a);
  }

  lemma {:induction false} FreeAfterBound(bs: seq<Block>, reqs: seq<Request>)
    requires WellAsked(reqs)
    ensures |FreeAfter(bs, reqs)| <= |bs| + AlignedRequests(reqs)
  {
    if reqs != [] {
      var before, r := reqs[..|reqs| - 1], reqs[|reqs| - 1];
      FreeAfterBound(bs, before);
      AllocateAddsOne(FreeAfter(bs, before), r.n, r.a);
    }
  }

  lemma {:induction false} SplitsGrow(reqs: seq<Request>, i: nat)
    requires i < |reqs|
    ensures AlignedRequests(reqs[..i]) + (if reqs[i].a > 1 then 1 else 0) <= AlignedRequests(reqs)
    decreases |reqs|
  {
    var before := reqs[..|reqs| - 1];
    if i < |reqs| - 1 {
      SplitsGrow(before, i);
      assert before[..i] == reqs[..i];
    }
  }

  /** An array with an entry for each block to start with, for each aligned request, and for the
      terminator is enough: every call of the sequence finds a terminator and leaves one. */
  lemma ArrayIsLongEnough(bs: seq<Block>, reqs: seq<Request>, length: nat, i: nat)
    requires WellAsked(reqs) && i < |reqs| && |bs| + AlignedRequests(reqs) < length
    ensures var before := FreeAfter(bs, reqs[..i]);
            && |before| < length && |Allocate(before, reqs[i].n, reqs[i].a).free| < length
            && !(NeedsEntry(before, reqs[i].n, reqs[i].a) && |before| + 1 == length)
            && !ReadsPastEnd(before, reqs[i].n, reqs[i].a, length)
  {
    FreeAfterBound(bs, reqs[..i]);
    SplitsGrow(reqs, i);
    AllocateAddsOne(FreeAfter(bs, reqs[..i]), reqs[i].n, reqs[i].a);
  }

  // ---- the kernel's calls, in bytes ----

  const NO_MEMORY: word := 0xffff_ffff

  /** All of the blocks lie in the 32-bit address space. */
  predicate InMemory(bs: seq<Block>) {
    forall i | 0 <= i < |bs| :: bs[i].base + bs[i].size <= 0x10_0000
  }

  lemma AllocateStaysInMemory(bs: seq<Block>, n: nat, a: nat)
    requires a > 0 && NonEmpty(bs) && InMemory(bs)
    ensures var r := Allocate(bs, n, a);
            InMemory(r.free) && (r.start.Some? ==> r.start.value + n <= 0x10_0000 && r.start.value < 0x10_0000)
  {
  }

  /** Kernel_add_free_RAM */
  method KernelAddFreeRam(blocks: array<Block>, basePage: word, sizeInPages: word)
    requires Terminated(blocks[..])
    modifies blocks
    ensures Tidy(blocks[..])
    ensures Terminated(blocks[..]) <==> sizeInPages == 0 || |old(Live(blocks[..]))| + 1 < blocks.Length
    ensures Live(blocks[..]) == old(Live(blocks[..])) + if sizeInPages > 0 then [Block(basePage, sizeInPages)] else []
  {
    ghost var bs := Live(blocks[..]);
    var p := 0;
    while blocks[p].size != 0
      invariant p <= |bs| < blocks.Length
      decreases |bs| - p
    {
      assert blocks[p] == blocks[..][p];
      p := p + 1;
    }
    assert p == |bs|;
    blocks[p] := Block(basePage, sizeInPages);
    LiveIs(blocks[..], bs + if sizeInPages > 0 then [Block(basePage, sizeInPages)] else []);
  }

  /** Kernel_allocate_pages; the kernel halts on NO_MEMORY, which is never a page's address. */
  method KernelAllocatePages(blocks: array<Block>, size: word, alignment: word) returns (result: word)
    requires PowerOfTwo(alignment / PAGE) && InMemory(Live(blocks[..])) && Terminated(blocks[..])
    requires alignment / PAGE > 0 ==> !ReadsPastEnd(Live(blocks[..]), size / PAGE, alignment / PAGE, blocks.Length)
    modifies blocks
    ensures Tidy(blocks[..]) && InMemory(Live(blocks[..])) && alignment / PAGE > 0
    ensures var bs := old(Live(blocks[..]));
            Terminated(blocks[..]) <==> !(NeedsEntry(bs, size / PAGE, alignment / PAGE) && |bs| + 1 == blocks.Length)
    ensures var r := Allocate(old(Live(blocks[..])), size / PAGE, alignment / PAGE);
            && Live(blocks[..]) == r.free
            && (if r.start.Some? then result == r.start.value * PAGE != NO_MEMORY else result == NO_MEMORY)
    ensures if result == NO_MEMORY then Live(blocks[..]) == old(Live(blocks[..]))
            else
              result % PAGE == 0
              && (Disjoint(old(Live(blocks[..]))) ==>
                    && result / PAGE % (alignment / PAGE) == 0 && Disjoint(Live(blocks[..]))
                    && Taken(old(Live(blocks[..])), Live(blocks[..]), result / PAGE, size / PAGE))
  {
    AlignedByMask(0, alignment / PAGE);
    ghost var bs := Live(blocks[..]);
    LiveParts(blocks[..]);
    AllocateConserves(bs, size / PAGE, alignment / PAGE);
    if Disjoint(bs) {
      AllocateTakes(bs, size / PAGE, alignment / PAGE);
    }
    AllocateStaysInMemory(Live(blocks[..]), size / PAGE, alignment / PAGE);
    hide Allocate, ReadsPastEnd, NeedsEntry, Tidy, Live, Terminated, InMemory, Disjoint, Taken, NonEmpty;
    var start := AllocateRun(blocks, size / PAGE, alignment / PAGE);
    if start.Some? {
      DivUnique(start.value, PAGE, 0, start.value * PAGE);
      ModUnique(start.value, PAGE, 0, start.value * PAGE);
    }
    result := if start.Some? then start.value * PAGE else NO_MEMORY;
  }
}
