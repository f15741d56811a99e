/** The pool of level 2 translation tables that all cores share (MMU/ARMv6/mmu.c): how a table is
    found again from the physical address in a level 1 entry, and how the cores take tables from
    the pool without locking it. */
module TablePool {
  import opened Words

  const TABLE := 0x400          // 256 entries
  const TABLES := 64
  const POOL: word := 0xfff3_0000
  const POOL_PAGE := 0x30       // the first of its pages in the top MiB
  const POOL_PAGES := 16
  const TOP_MIB := 0xfff0_0000
  const PRW := 0x157            // a page for privileged reading and writing
  const NON_SECURE_TABLE := 9   // type 1, with NS set

  // ---- from level 1 entries to tables ----

  /** The pages of the pool are mapped in order, as setup_global_translation_tables leaves them;
      the pool has been allocated on a 64 KiB boundary. */
  predicate MapsPool(high: seq<word>, physical: word) {
    && |high| == 256 && physical % 0x1_0000 == 0
    && forall i | POOL_PAGE <= i < POOL_PAGE + POOL_PAGES :: high[i] == PRW + physical + (i - POOL_PAGE) * PAGE
  }

  predicate IsTable(va: word) {
    POOL <= va < POOL + TABLES * TABLE && va % TABLE == 0
  }

  /** The level 1 entry refers to a table of the pool. */
  predicate RefersToPool(l1: word, physical: word) {
    l1 % 4 == 1 && 0 <= l1 / TABLE * TABLE - physical < TABLES * TABLE
  }

  /** The physical address of something in the top MiB, by its page entry. */
  function PhysicalOf(high: seq<word>, va: word): word
    requires |high| == 256
  {
    high[va / PAGE % 256] / PAGE * PAGE + va % PAGE
  }

  function TableEntry(physicalTable: word): word
    requires physicalTable % TABLE == 0
  {
    physicalTable + NON_SECURE_TABLE
  }

  /** The table that the scan of the page entries, from the i-th on, arrives at. */
  function Lookup(high: seq<word>, l1: word, i: nat): int
    requires i <= |high|
    decreases |high| - i
  {
    if i < |high| && high[i] % 4 == 3 && high[i] / PAGE != l1 / PAGE then Lookup(high, l1, i + 1)
    else POOL + (4 * (i - POOL_PAGE) + l1 / TABLE % 4) * TABLE
  }

  /** The fields of a level 1 entry for a table (section B3.5 of ARM DDI 0406C): it is non-secure, in
      domain 0, and every other field but the base is zero. */
  predicate IsNonSecureTable(entry: word, base: int) {
    && entry % 4 == 1             // a table
    && entry / 0x4 % 2 == 0
    && entry / 0x8 % 2 == 1       // NS
    && entry / 0x10 % 2 == 0
    && entry / 0x20 % 16 == 0     // domain
    && entry / 0x200 % 2 == 0
    && entry / 0x400 * 0x400 == base
  }

  /** The fields of a level 2 entry for a small page: privileged reading and writing, never executed,
      write-back cached, global. */
  predicate IsPrivateData(entry: word, base: int) {
    && entry % 2 == 1             // XN
    && entry / 0x2 % 2 == 1       // a small page
    && entry / 0x4 % 2 == 1       // B
    && entry / 0x8 % 2 == 0       // C
    && entry / 0x10 % 2 == 1      // AF
    && entry / 0x20 % 2 == 0      // unprivileged access
    && entry / 0x40 % 8 == 5      // TEX
    && entry / 0x200 % 2 == 0     // read only
    && entry / 0x400 % 2 == 0     // S
    && entry / 0x800 % 2 == 0     // nG
    && entry / 0x1000 * 0x1000 == base
  }

  lemma TableEntryBits(physicalTable: word)
    requires physicalTable % TABLE == 0
    ensures physicalTable + NON_SECURE_TABLE < WORD_SIZE
    ensures IsNonSecureTable(physicalTable + NON_SECURE_TABLE, physicalTable)
  {
    var n := physicalTable / TABLE;
    assert physicalTable == n * 0x400;
    FieldOf(n, 0x9, 0x1, 4, 0x100);
    FieldOf(n, 0x9, 0x4, 2, 0x80);
    FieldOf(n, 0x9, 0x8, 2, 0x40);
    FieldOf(n, 0x9, 0x10, 2, 0x20);
    FieldOf(n, 0x9, 0x20, 16, 0x2);
    FieldOf(n, 0x9, 0x200, 2, 0x1);
    DivUnique(n, 0x400, 0x9, n * 0x400 + 0x9);
  }

  lemma PoolPageBits(physical: word, i: nat)
    requires physical % 0x1_0000 == 0 && i < POOL_PAGES
    ensures PRW + physical + i * PAGE < WORD_SIZE
    ensures IsPrivateData(PRW + physical + i * PAGE, physical + i * PAGE)
  {
    PrivateDataBits(physical / 0x1_0000 * 16 + i);
  }

  lemma PrivateDataBits(n: nat)
    requires n * 0x1000 + PRW < WORD_SIZE
    ensures IsPrivateData(n * 0x1000 + PRW, n * 0x1000)
  {
    LowPrivateBits(n, n * 0x1000 + PRW);
    HighPrivateBits(n, n * 0x1000 + PRW);
  }

  lemma LowPrivateBits(n: nat, entry: nat)
    requires entry == n * 0x1000 + 0x157
    ensures entry % 2 == 1 && entry / 0x2 % 2 == 1 && entry / 0x4 % 2 == 1 && entry / 0x8 % 2 == 0 && entry / 0x10 % 2 == 1
  {
    FieldOf(n, 0x157, 0x1, 2, 0x800);
    FieldOf(n, 0x157, 0x2, 2, 0x400);
    FieldOf(n, 0x157, 0x4, 2, 0x200);
    FieldOf(n, 0x157, 0x8, 2, 0x100);
    FieldOf(n, 0x157, 0x10, 2, 0x80);
  }

  lemma HighPrivateBits(n: nat, entry: nat)
    requires entry == n * 0x1000 + 0x157
    ensures entry / 0x20 % 2 == 0 && entry / 0x40 % 8 == 5 && entry / 0x200 % 2 == 0 && entry / 0x400 % 2 == 0
    ensures entry / 0x800 % 2 == 0 && entry / 0x1000 == n
  {
    FieldOf(n, 0x157, 0x20, 2, 0x40);
    FieldOf(n, 0x157, 0x40, 8, 0x8);
    FieldOf(n, 0x157, 0x200, 2, 0x4);
    FieldOf(n, 0x157, 0x400, 2, 0x2);
    FieldOf(n, 0x157, 0x800, 2, 0x1);
    DivUnique(n, 0x1000, 0x157, entry);
  }

  lemma OfPage(n: nat, r: nat)
    requires r < PAGE
    ensures (n * PAGE + r) / PAGE == n && (n * PAGE + r) % PAGE == r && (n * PAGE + r) % 4 == r % 4
  {
  }

  lemma OfTable(n: nat, r: nat)
    requires r < TABLE
    ensures (n * TABLE + r) / TABLE == n && (n * TABLE + r) % TABLE == r && (n * TABLE + r) % 4 == r % 4
    ensures (n * TABLE + r) / PAGE == n / 4
  {
    OfPage(n / 4, n % 4 * TABLE + r);
    assert n * TABLE + r == n / 4 * PAGE + (n % 4 * TABLE + r);
  }

  lemma OfPool(physical: word) returns (pool: nat)
    requires physical % 0x1_0000 == 0
    ensures physical == pool * 0x1_0000 && physical / PAGE == 16 * pool && physical / TABLE == 64 * pool
  {
    pool := physical / 0x1_0000;
    OfPage(16 * pool, 0);
    OfTable(64 * pool, 0);
  }

  lemma PoolEntry(high: seq<word>, physical: word, i: nat)
    requires MapsPool(high, physical) && POOL_PAGE <= i < POOL_PAGE + POOL_PAGES
    ensures high[i] % 4 == 3 && high[i] / PAGE == physical / PAGE + (i - POOL_PAGE)
  {
    var pool := OfPool(physical);
    OfPage(16 * pool + (i - POOL_PAGE), PRW);
  }

  /** An address in pages, in tables within the page, and in bytes. */
  lemma Parts(x: word)
    ensures x / TABLE == 4 * (x / PAGE) + x / TABLE % 4
    ensures x == x / TABLE * TABLE + x % TABLE
  {
    OfTable(x / TABLE, x % TABLE);
  }

  lemma PoolPages(physical: word, l1: word)
    requires physical % 0x1_0000 == 0 && RefersToPool(l1, physical)
    ensures physical / PAGE * PAGE == physical && physical / PAGE <= l1 / PAGE < physical / PAGE + POOL_PAGES
  {
    var pool := OfPool(physical);
    var n := l1 / TABLE;
    assert 64 * pool <= n < 64 * pool + 64;
    Parts(l1);
  }

  lemma {:induction false} LookupIsOffset(high: seq<word>, physical: word, l1: word, i: nat)
    requires MapsPool(high, physical) && RefersToPool(l1, physical)
    requires POOL_PAGE <= i <= POOL_PAGE + (l1 / PAGE - physical / PAGE)
    ensures Lookup(high, l1, i) == POOL + (l1 / TABLE * TABLE - physical)
    decreases 256 - i
  {
    PoolPages(physical, l1);
    PoolEntry(high, physical, i);
    Parts(l1);
    hide RefersToPool;
    if i < POOL_PAGE + (l1 / PAGE - physical / PAGE) {
      LookupIsOffset(high, physical, l1, i + 1);
    }
  }

  /** Where a table is in the pool. */
  lemma TableOffset(table: word)
    requires IsTable(table)
    ensures table - POOL < TABLES * TABLE && (table - POOL) % TABLE == 0
    ensures table / PAGE % 256 == POOL_PAGE + (table - POOL) / PAGE
    ensures (table - POOL) / PAGE < POOL_PAGES && (table - POOL) / PAGE * PAGE + table % PAGE == table - POOL
  {
    var k := table / TABLE - POOL / TABLE;
    assert table - POOL == k * TABLE;
    OfTable(k, 0);
    var q, r := (table - POOL) / PAGE, (table - POOL) % PAGE;
    assert table == (POOL / PAGE + q) * PAGE + r;
    OfPage(POOL / PAGE + q, r);
    ModUnique(0xfff, 256, POOL_PAGE + q, POOL / PAGE + q);
  }

  lemma PhysicalIsOffset(high: seq<word>, physical: word, table: word)
    requires MapsPool(high, physical) && IsTable(table)
    ensures PhysicalOf(high, table) == physical + (table - POOL)
    ensures PhysicalOf(high, table) % TABLE == 0 && RefersToPool(TableEntry(PhysicalOf(high, table)), physical)
  {
    TableOffset(table);
    PoolEntry(high, physical, table / PAGE % 256);
    var pool := OfPool(physical);
    assert PhysicalOf(high, table) == physical + (table - POOL);
    EntryRefers(physical, table - POOL);
  }

  lemma EntryRefers(physical: word, offset: nat)
    requires physical % 0x1_0000 == 0 && offset < TABLES * TABLE && offset % TABLE == 0
    ensures (physical + offset) % TABLE == 0 && physical + offset + NON_SECURE_TABLE < WORD_SIZE
    ensures RefersToPool(physical + offset + NON_SECURE_TABLE, physical)
    ensures (physical + offset + NON_SECURE_TABLE) / TABLE * TABLE == physical + offset
  {
    var pool := OfPool(physical);
    var t := offset / TABLE;
    assert offset == t * TABLE;
    assert physical + offset == (64 * pool + t) * TABLE;
    OfTable(64 * pool + t, 0);
    OfTable(64 * pool + t, NON_SECURE_TABLE);
  }

  /** Storing the physical address of a table in a level 1 entry and looking the table up again
      gives the same table, for every table of the pool. */
  lemma StoreThenLookup(high: seq<word>, physical: word, table: word)
    requires MapsPool(high, physical) && IsTable(table)
    ensures PhysicalOf(high, table) % TABLE == 0
    ensures Lookup(high, TableEntry(PhysicalOf(high, table)), POOL_PAGE) == table
  {
    TableOffset(table);
    hide *;
    PhysicalIsOffset(high, physical, table);
    EntryLookup(high, physical, table - POOL);
  }

  lemma EntryLookup(high: seq<word>, physical: word, offset: nat)
    requires MapsPool(high, physical) && offset < TABLES * TABLE && offset % TABLE == 0
    ensures physical + offset < WORD_SIZE && (physical + offset) % TABLE == 0
    ensures Lookup(high, TableEntry(physical + offset), POOL_PAGE) == POOL + offset
  {
    EntryRefers(physical, offset);
    PoolPages(physical, physical + offset + NON_SECURE_TABLE);
    hide RefersToPool, Lookup, MapsPool;
    LookupIsOffset(high, physical, physical + offset + NON_SECURE_TABLE, POOL_PAGE);
  }

  /** Whatever the other bits of a level 1 entry, the table that is found is where it refers to. */
  lemma LookupThenStore(high: seq<word>, physical: word, l1: word)
    requires MapsPool(high, physical) && RefersToPool(l1, physical)
    ensures var table := Lookup(high, l1, POOL_PAGE);
            0 <= table < WORD_SIZE && IsTable(table) && PhysicalOf(high, table) == l1 / TABLE * TABLE
  {
    PoolPages(physical, l1);
    var pool := OfPool(physical);
    var t := l1 / TABLE - 64 * pool;
    assert l1 / TABLE * TABLE - physical == t * TABLE;
    OfTable(POOL / TABLE + t, 0);
    assert IsTable(POOL + t * TABLE);
    hide RefersToPool, PhysicalOf, Lookup, MapsPool, IsTable;
    LookupIsOffset(high, physical, l1, POOL_PAGE);
    PhysicalIsOffset(high, physical, POOL + t * TABLE);
  }

  /** The part of setup_global_translation_tables that makes the pool visible. */
  method MapPool(high: array<word>, physical: word)
    requires high.Length == 256 && physical % 0x1_0000 == 0
    modifies high
    ensures MapsPool(high[..], physical)
    ensures forall i | 0 <= i < POOL_PAGES :: IsPrivateData(high[POOL_PAGE + i], physical + i * PAGE)
    ensures forall i | 0 <= i < 256 && !(POOL_PAGE <= i < POOL_PAGE + POOL_PAGES) :: high[i] == old(high[i])
  {
    for i := 0 to TABLES / 4
      invariant forall k | 0 <= k < i :: high[POOL_PAGE + k] == PRW + physical + k * PAGE
      invariant forall k | 0 <= k < 256 && !(POOL_PAGE <= k < POOL_PAGE + i) :: high[k] == old(high[k])
    {
      high[POOL_PAGE + i] := PRW + (physical + i * PAGE);
    }
    assert forall i | POOL_PAGE <= i < POOL_PAGE + POOL_PAGES :: high[i] == high[POOL_PAGE + (i - POOL_PAGE)];
    forall i | 0 <= i < POOL_PAGES
      ensures IsPrivateData(high[POOL_PAGE + i], physical + i * PAGE)
    {
      PoolPageBits(physical, i);
    }
  }

  /** A core's own table of the top MiB has copied the entry of the global table, or still lacks it. */
  predicate CopiesPool(local: seq<word>, high: seq<word>) {
    && |local| == |high| == 256
    && forall i | POOL_PAGE <= i < POOL_PAGE + POOL_PAGES :: local[i] % 4 == 0 || local[i] == high[i]
  }

  /** check_global_l2tt: an access to the top MiB has faulted. The core halts if the global entry is
      that handler again. */
  method CheckGlobal(local: array<word>, high: array<word>, address: word, handler: word) returns (halted: bool)
    requires CopiesPool(local[..], high[..]) && local != high && address >= TOP_MIB
    modifies local
    ensures CopiesPool(local[..], high[..])
    ensures local[address / PAGE % 256] == high[address / PAGE % 256]
    ensures forall i | 0 <= i < 256 && i != address / PAGE % 256 :: local[i] == old(local[i])
    ensures halted <==> high[address / PAGE % 256] == handler
  {
    var page := address / PAGE % 256;
    local[page] := high[page];
    assert forall i | 0 <= i < 256 && i != page :: local[i] == old(local[..])[i];
    halted := local[page] == handler;
  }

  /** find_table_from_l1tt_entry. */
  method FindTable(high: array<word>, l1: word, ghost physical: word) returns (table: int)
    requires MapsPool(high[..], physical) && RefersToPool(l1, physical)
    ensures table == Lookup(high[..], l1, POOL_PAGE)
  {
    PoolPages(physical, l1);
    Parts(l1);
    var tableBase := l1 / TABLE;
    var page := tableBase / 4;
    var i := POOL_PAGE;
    hide RefersToPool, MapsPool;
    while high[i] % 4 == 3 && high[i] / PAGE != page
      invariant POOL_PAGE <= i <= POOL_PAGE + (page - physical / PAGE) < POOL_PAGE + POOL_PAGES
      invariant Lookup(high[..], l1, POOL_PAGE) == Lookup(high[..], l1, i)
      decreases 256 - i
    {
      PoolEntry(high[..], physical, i);
      i := i + 1;
    }
    table := POOL + (i - POOL_PAGE) * 4 * TABLE + tableBase % 4 * TABLE;
  }

  lemma EntryForTable(high: seq<word>, physical: word, table: word)
    requires MapsPool(high, physical) && IsTable(table)
    ensures POOL_PAGE <= table / PAGE % 256 < POOL_PAGE + POOL_PAGES && |high| == 256
    ensures var p := high[table / PAGE % 256] / PAGE * PAGE + table % PAGE;
            && p == physical + (table - POOL) && p + NON_SECURE_TABLE < WORD_SIZE
            && IsNonSecureTable(p + NON_SECURE_TABLE, p) && RefersToPool(p + NON_SECURE_TABLE, physical)
            && Lookup(high, p + NON_SECURE_TABLE, POOL_PAGE) == table
  {
    hide Lookup, RefersToPool, IsNonSecureTable;
    StoreThenLookup(high, physical, table);
    PhysicalIsOffset(high, physical, table);
    TableOffset(table);
    TableEntryBits(PhysicalOf(high, table));
  }

  /** map_l2tt_at_section_local: afterwards find_table_from_l1tt_entry leads to the table. The
      core has used the table, so its page is present. */
  method MapAtSection(l1tt: array<word>, local: array<word>, table: word, section: nat,
                      ghost high: seq<word>, ghost physical: word)
    requires l1tt != local && section < l1tt.Length
    requires MapsPool(high, physical) && IsTable(table)
    requires CopiesPool(local[..], high) && local[table / PAGE % 256] % 4 != 0
    modifies l1tt
    ensures RefersToPool(l1tt[section], physical) && Lookup(high, l1tt[section], POOL_PAGE) == table
    ensures IsNonSecureTable(l1tt[section], physical + (table - POOL))
    ensures forall i | 0 <= i < l1tt.Length && i != section :: l1tt[i] == old(l1tt[i])
  {
    hide MapsPool, IsTable, Lookup, RefersToPool, IsNonSecureTable;
    EntryForTable(high, physical, table);
    assert local[table / PAGE % 256] == local[..][table / PAGE % 256];
    var physicalTable := local[table / PAGE % 256] / PAGE * PAGE + table % PAGE;
    l1tt[section] := physicalTable + NON_SECURE_TABLE;
  }

  // ---- taking a table ----

  /** The first word of a table: one of the two markers, or anything else once it is in use. */
  datatype Marker = Free | LastFree | InUse

  /** Where a core is in find_free_table; the counter is the table it looks at. */
  datatype Place =
    | Elsewhere
    | IsItFree(t: nat)      // the first comparison of the inner loop
    | IsItLast(t: nat)      // the second
    | WasItLast(t: nat)     // the comparison after the loop
    | Swap(t: nat)          // change_word_if_equal
    | Halted                // bkpt 4

  /** given lists the tables that calls have returned, over the whole run. */
  datatype State = State(tables: seq<Marker>, cores: seq<Place>, given: seq<nat>)

  /** What setup_global_translation_tables leaves: the first table is in use, the last is a marker. */
  function Start(cores: nat): (s: State)
    ensures Inv(s)
  {
    State(seq(TABLES, i => if i == 0 then InUse else if i == TABLES - 1 then LastFree else Free),
          seq(cores, _ => Elsewhere), [])
  }

  /** One memory access by core c; change_word_if_equal is one atomic access. */
  function Step(s: State, c: nat): State
    requires Inv(s) && c < |s.cores|
  {
    match s.cores[c]
    case Elsewhere => At(s, c, IsItFree(0))
    case IsItFree(t) => At(s, c, if s.tables[t] != Free then IsItLast(t) else WasItLast(t))
    case IsItLast(t) => At(s, c, if s.tables[t] != LastFree then IsItFree(t + 1) else WasItLast(t))
    case WasItLast(t) => At(s, c, if s.tables[t] == LastFree then Halted else Swap(t))
    case Swap(t) =>
      if s.tables[t] == Free then State(s.tables[t := InUse], s.cores[c := Elsewhere], s.given + [t])
      else At(s, c, IsItFree(t))
    case Halted => s
  }

  function At(s: State, c: nat, p: Place): State
    requires c < |s.cores|
  {
    s.(cores := s.cores[c := p])
  }

  predicate NoneFree(tables: seq<Marker>, t: nat)
    requires t <= |tables|
  {
    forall i | 0 <= i < t :: tables[i] != Free
  }

  /** A core looks at tables of the pool only, and no table that it has passed is free. */
  predicate Passed(tables: seq<Marker>, p: Place)
    requires |tables| == TABLES
  {
    match p
    case Elsewhere => true
    case IsItFree(t) => t < TABLES && NoneFree(tables, t)
    case IsItLast(t) => t < TABLES && NoneFree(tables, t + 1)
    case WasItLast(t) => t < TABLES && NoneFree(tables, t)
    case Swap(t) => t < TABLES - 1 && NoneFree(tables, t)
    case Halted => NoneFree(tables, TABLES)
  }

  /** Every table but the first and the last is free, or has been given out exactly once. */
  predicate Accounted(tables: seq<Marker>, given: seq<nat>) {
    && |tables| == TABLES && tables[0] == InUse && tables[TABLES - 1] == LastFree
    && (forall t | 0 < t < TABLES - 1 :: tables[t] != LastFree && (tables[t] == InUse <==> t in given))
    && (forall i | 0 <= i < |given| :: 0 < given[i] < TABLES - 1)
    && (forall i, j | 0 <= i < j < |given| :: given[i] != given[j])
  }

  predicate Inv(s: State) {
    Accounted(s.tables, s.given) && forall c | 0 <= c < |s.cores| :: Passed(s.tables, s.cores[c])
  }

  lemma GiveKeepsAccounts(tables: seq<Marker>, given: seq<nat>, t: nat)
    requires Accounted(tables, given) && t < TABLES && tables[t] == Free
    ensures Accounted(tables[t := InUse], given + [t])
  {
    assert t in given + [t];
    assert forall i | 0 <= i < |given| :: (given + [t])[i] in given;
  }

  /** A table that a core has passed stays taken. */
  lemma GiveKeepsPassed(tables: seq<Marker>, t: nat, p: Place)
    requires |tables| == TABLES && t < TABLES && Passed(tables, p)
    ensures Passed(tables[t := InUse], p)
  {
  }

  lemma StepKeepsInv(s: State, c: nat)
    requires Inv(s) && c < |s.cores|
    ensures Inv(Step(s, c))
  {
    assert Passed(s.tables, s.cores[c]);
    var n := Step(s, c);
    if s.cores[c].Swap? && s.tables[s.cores[c].t] == Free {
      var t := s.cores[c].t;
      GiveKeepsAccounts(s.tables, s.given, t);
      forall d | 0 <= d < |s.cores|
        ensures Passed(n.tables, n.cores[d])
      {
        GiveKeepsPassed(s.tables, t, s.cores[d]);
      }
    } else {
      StepKeepsPassed(s, c);
    }
  }

  lemma StepKeepsPassed(s: State, c: nat)
    requires Inv(s) && c < |s.cores| && !(s.cores[c].Swap? && s.tables[s.cores[c].t] == Free)
    ensures Step(s, c).tables == s.tables && Step(s, c).given == s.given && |Step(s, c).cores| == |s.cores|
    ensures forall d | 0 <= d < |s.cores| :: Passed(s.tables, Step(s, c).cores[d])
  {
    assert Passed(s.tables, s.cores[c]);
  }

  /** The cores take turns as listed. */
  ghost predicate Reaches(s: State, turns: seq<nat>, r: State)
    requires Inv(s)
    decreases |turns|
  {
    if turns == [] then s == r
    else
      turns[0] < |s.cores| && (StepKeepsInv(s, turns[0]); Reaches(Step(s, turns[0]), turns[1..], r))
  }

  lemma {:induction false} RunKeepsInv(s: State, turns: seq<nat>, r: State)
    requires Inv(s) && Reaches(s, turns, r)
    ensures Inv(r)
    decreases |turns|
  {
    if turns != [] {
      StepKeepsInv(s, turns[0]);
      RunKeepsInv(Step(s, turns[0]), turns[1..], r);
    }
  }

  /** However the cores interleave, no table is given to two callers, the kernel's own table and
      the end marker are never given away, and a core halts only when every table has been. */
  lemma NoTableGivenTwice(cores: nat, turns: seq<nat>, r: State)
    requires Reaches(Start(cores), turns, r)
    ensures forall i, j | 0 <= i < j < |r.given| :: r.given[i] != r.given[j]
    ensures forall i | 0 <= i < |r.given| :: 0 < r.given[i] < TABLES - 1
    ensures Halted in r.cores ==> forall t | 0 < t < TABLES - 1 :: t in r.given
  {
    RunKeepsInv(Start(cores), turns, r);
    if Halted in r.cores {
      var c :| 0 <= c < |r.cores| && r.cores[c] == Halted;
      assert Passed(r.tables, r.cores[c]);
    }
  }

  /** The calls that core c makes on its own, n accesses long. */
  function Alone(c: nat, n: nat): seq<nat> {
    seq(n, _ => c)
  }

  /** Nothing has changed but that core c's call has returned the first free table or, without one,
      has halted the core. */
  predicate Ended(s: State, c: nat, r: State)
    requires Inv(s) && c < |s.cores|
  {
    if NoneFree(s.tables, TABLES) then r == s.(cores := s.cores[c := Halted])
    else
      exists t | 0 <= t < TABLES && NoneFree(s.tables, t) ::
        s.tables[t] == Free && r == State(s.tables[t := InUse], s.cores[c := Elsewhere], s.given + [t])
  }

  /** How far core c still is from the end of its call, if no other core makes an access. */
  function ToGo(s: State, c: nat): nat
    requires Inv(s) && c < |s.cores|
  {
    assert Passed(s.tables, s.cores[c]);
    match s.cores[c]
    case Elsewhere => 5 * TABLES + 5
    case Halted => 0
    case IsItFree(t) => 5 * (TABLES - t) + if s.tables[t] == Free then 3 else 2
    case IsItLast(t) => 5 * (TABLES - t) + 1
    case WasItLast(t) => 5 * (TABLES - t) + if s.tables[t] == Free then 2 else if s.tables[t] == LastFree then 0 else 4
    case Swap(t) => 5 * (TABLES - t) + if s.tables[t] == Free then 1 else 3
  }

  /** Core c's next access ends its call, or brings the end nearer. */
  lemma GetsOn(s: State, c: nat)
    requires Inv(s) && c < |s.cores| && s.cores[c] != Halted
    ensures var n := Step(s, c);
            || Ended(s, c, n)
            || (Inv(n) && n == At(s, c, n.cores[c]) && n.cores[c] != Halted && ToGo(n, c) < ToGo(s, c))
  {
    StepKeepsInv(s, c);
    assert Passed(s.tables, s.cores[c]);
  }

  /** Wherever in find_free_table a core has got to, and also if others have meanwhile taken what it
      had seen: once nobody interferes, it gets the first table that is free or, if there is none,
      halts. */
  lemma {:induction false} GetsFirstFree(s: State, c: nat)
    requires Inv(s) && c < |s.cores| && s.cores[c] != Halted
    ensures exists n: nat, r :: Reaches(s, Alone(c, n), r) && Ended(s, c, r)
    decreases ToGo(s, c)
  {
    GetsOn(s, c);
    StepKeepsInv(s, c);
    var next := Step(s, c);
    var n: nat, r := 0, next;
    assert Reaches(next, Alone(c, 0), next);
    if !Ended(s, c, next) {
      GetsFirstFree(next, c);
      n, r :| Reaches(next, Alone(c, n), r) && Ended(next, c, r);
    }
    assert Alone(c, n + 1)[1..] == Alone(c, n);
    assert Reaches(s, Alone(c, n + 1), r) && Ended(s, c, r);
  }

  /** find_free_table_pre_mmu, on the only core that runs then: the first free table. */
  method FindFreeTablePreMmu(tables: array<Marker>) returns (t: nat, halted: bool)
    requires tables.Length == TABLES && tables[TABLES - 1] == LastFree
    modifies tables
    ensures halted ==> t < TABLES && tables[..] == old(tables[..]) && NoneFree(tables[..], t) && tables[t] == LastFree
    ensures !halted ==> t < TABLES && old(tables[t]) == Free && tables[..] == old(tables[..])[t := InUse]
    ensures !halted ==> NoneFree(old(tables[..]), t)
  {
    t := 0;
    while tables[t] != Free && tables[t] != LastFree
      invariant t < TABLES && forall i | 0 <= i < t :: tables[i] != Free
      decreases TABLES - t
    {
      t := t + 1;
    }
    halted := tables[t] == LastFree;
    if !halted {
      tables[t] := InUse;
    }
  }
}
