/** What init_mm, init_task1 and init_shared_memory leave in memory. */
module BootImage {
  import opened Paging
  import opened AddressSpaces

  const FIRST_REGION_FRAME := 312
  const FIRST_FREE_FRAME := 332

  /** Frames taken by boot: the code and data of task 1 and the regions. */
  const BOOT_FRAMES := 38

  /** The pages around the task array, which init_table_pages makes invalid; the linker
      chooses them. */
  datatype Guards = Guards(low: int, high: int)

  /** A table with kernel pages only. */
  function KernelTable(g: Guards): Table {
    seq(TOTAL_PAGES, k requires 0 <= k < TOTAL_PAGES =>
      if 1 <= k < NUM_PAG_KERNEL then Entry(k, false, true, k != g.low && k != g.high) else NO_ENTRY)
  }

  /** The table of task 1: alloc_frame gives every second frame from NUM_PAG_KERNEL on. */
  function FirstTable(g: Guards): Table {
    seq(TOTAL_PAGES, k requires 0 <= k < TOTAL_PAGES =>
      if PAG_LOG_INIT_CODE <= k < PAG_LOG_INIT_DATA then Entry(NUM_PAG_KERNEL + 2 * (k - PAG_LOG_INIT_CODE), true, false, true)
      else if IsData(k) then Mapped(FIRST_DATA_FRAME + 2 * (k - PAG_LOG_INIT_DATA))
      else KernelTable(g)[k])
  }

  /** The counters when boot has taken n frames. */
  function CountsAfter(n: nat): FrameCounts {
    seq(TOTAL_PAGES, f requires 0 <= f < TOTAL_PAGES =>
      if f < NUM_PAG_KERNEL || (f < NUM_PAG_KERNEL + 2 * n && f % 2 == 0) then USED_FRAME else FREE_FRAME)
  }

  function BootCounts(): FrameCounts {
    CountsAfter(BOOT_FRAMES)
  }

  function BootTables(g: Guards): Tables {
    var k := KernelTable(g);
    [k, FirstTable(g), k, k, k, k, k, k, k, k]
  }

  function BootRegions(): Regions {
    seq<Region>(NUM_REGIONS, i requires 0 <= i < NUM_REGIONS => Region(FIRST_REGION_FRAME + 2 * i, 0))
  }

  /** Slot 0 is idle, slot 1 runs, the others are free; `ram` is what the loader left. */
  function BootState(g: Guards, ram: Ram): State {
    State(BootCounts(), BootTables(g), ram, BootRegions(), [2, 3, 4, 5, 6, 7, 8, 9])
  }

  lemma {:induction false} PoolSkips(phys: FrameCounts, i: nat, j: nat)
    requires i <= j <= TOTAL_PAGES && (j - i) % 2 == 0
    requires forall f: Frame :: i <= f < j && (f - i) % 2 == 0 ==> phys[f] != FREE_FRAME
    ensures Pool(phys, i) == Pool(phys, j)
    decreases j - i
  {
    if i < j {
      PoolSkips(phys, i + 2, j);
    }
  }

  lemma CountsAfterPool(n: nat)
    requires NUM_PAG_KERNEL + 2 * n <= TOTAL_PAGES
    ensures Pool(CountsAfter(n), NUM_PAG_KERNEL) == Pool(CountsAfter(n), NUM_PAG_KERNEL + 2 * n)
  {
    PoolSkips(CountsAfter(n), NUM_PAG_KERNEL, NUM_PAG_KERNEL + 2 * n);
  }

  /** The next frame alloc_frame gives, and what it leaves. */
  lemma CountsAfterStep(n: nat)
    requires NUM_PAG_KERNEL + 2 * n < TOTAL_PAGES
    ensures Pool(CountsAfter(n), NUM_PAG_KERNEL) != [] && Pool(CountsAfter(n), NUM_PAG_KERNEL)[0] == NUM_PAG_KERNEL + 2 * n
    ensures CountsAfter(n)[NUM_PAG_KERNEL + 2 * n := USED_FRAME] == CountsAfter(n + 1)
  {
    CountsAfterPool(n);
    PoolStarts(CountsAfter(n), NUM_PAG_KERNEL + 2 * n);
    CountsAfterOne(n, NUM_PAG_KERNEL + 2 * n);
  }

  lemma PoolStarts(phys: FrameCounts, i: nat)
    requires i < TOTAL_PAGES && phys[i] == FREE_FRAME
    ensures Pool(phys, i) != [] && Pool(phys, i)[0] == i
  {
  }

  lemma CountsAfterOne(n: nat, f: Frame)
    requires f == NUM_PAG_KERNEL + 2 * n
    ensures CountsAfter(n)[f := USED_FRAME] == CountsAfter(n + 1)
  {
  }
}
