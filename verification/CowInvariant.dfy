/** What every reachable memory state satisfies: the frame counters of copy-on-write,
    the reference counts of the shared regions, and the budget of the frame pool. */
module CowInvariant {
  import opened Common
  import opened Paging
  import opened AddressSpaces
  import opened Counting

  /** Slot p maps frame f on page k. */
  ghost predicate Maps(pt: Tables, p: int, k: int, f: Frame) {
    0 <= p < NR_TASKS && 0 <= k < TOTAL_PAGES && pt[p][k].present && pt[p][k].frame == f
  }

  /** The table entries on pages lo..hi, over all tables, that map frame f. */
  ghost function Places(pt: Tables, lo: nat, hi: nat, f: Frame): set<(int, int)> {
    set p, k | 0 <= p < NR_TASKS && lo <= k < hi && Maps(pt, p, k, f) :: (p, k)
  }

  ghost function DataPlaces(pt: Tables, f: Frame): set<(int, int)> {
    Places(pt, PAG_LOG_INIT_DATA, PAG_LOG_SHARED, f)
  }

  ghost function SharedPlaces(pt: Tables, f: Frame): set<(int, int)> {
    Places(pt, PAG_LOG_SHARED, TOTAL_PAGES, f)
  }

  /** Slot p has data page k. */
  ghost predicate DataAt(pt: Tables, p: int, k: int) {
    0 <= p < NR_TASKS && IsData(k) && pt[p][k].present
  }

  /** The frames mapped on data pages by the slots below n. */
  ghost function MappedBelow(pt: Tables, n: nat): set<Frame>
    requires n <= NR_TASKS
  {
    set p, k | 0 <= p < n && PAG_LOG_INIT_DATA <= k < PAG_LOG_SHARED && DataAt(pt, p, k) :: pt[p][k].frame
  }

  ghost predicate SlotsOk(free: seq<Slot>) {
    Distinct(free) && forall i :: 0 <= i < |free| ==> 2 <= free[i]
  }

  /** Exactly the live slots have data pages. */
  ghost predicate TablesOk(s: State) {
    && (forall p, k :: Live(s, p) && IsData(k) ==> s.pt[p][k].present)
    && (forall p, k :: DataAt(s.pt, p, k) ==> Live(s, p) && s.pt[p][k].frame >= FIRST_DATA_FRAME)
  }

  /** Every mapped page of a live slot from the code on is open to the user. */
  ghost predicate UserOk(s: State) {
    forall p, k :: Live(s, p) && PAG_LOG_INIT_CODE <= k < TOTAL_PAGES ==> UserAt(s.pt, p, k)
  }

  ghost predicate UserAt(pt: Tables, p: Slot, k: int)
    requires 0 <= k < TOTAL_PAGES
  {
    pt[p][k].present ==> pt[p][k].user
  }

  /** The frame of code page k in every address space. */
  function CodeFrame(k: int): Frame
    requires IsCode(k)
  {
    NUM_PAG_KERNEL + 2 * (k - PAG_LOG_INIT_CODE)
  }

  /** All live slots run the same code, and its frames are not counted up. */
  ghost predicate CodeOk(s: State) {
    && (forall p, k :: Live(s, p) && IsCode(k) ==> s.pt[p][k].present && s.pt[p][k].frame == CodeFrame(k))
    && (forall k :: IsCode(k) ==> s.phys[CodeFrame(k)] == 1)
  }

  /** Page k maps a kernel frame, or a region. */
  ghost predicate LowAt(s: State, p: Slot, k: int)
    requires 0 <= k < TOTAL_PAGES
  {
    s.pt[p][k].frame < NUM_PAG_KERNEL || IsRegion(s.shm, s.pt[p][k].frame)
  }

  /** The pages below the code, and the kernel frames. */
  ghost predicate LowOk(s: State) {
    && (forall p: Slot, k :: 0 <= k < PAG_LOG_INIT_CODE ==> LowAt(s, p, k))
    && (forall f :: 0 <= f < NUM_PAG_KERNEL ==> s.phys[f] == 1)
  }

  /** A shared page maps nothing, or one of the regions; only live slots have any. */
  ghost predicate SharedOk(s: State) {
    forall p: Slot, k :: IsShared(k) ==>
      s.pt[p][k] == NO_ENTRY || (Live(s, p) && s.pt[p][k] == Mapped(s.pt[p][k].frame) && IsRegion(s.shm, s.pt[p][k].frame))
  }

  ghost predicate IsRegion(shm: Regions, f: Frame) {
    exists i :: 0 <= i < NUM_REGIONS && shm[i].frame == f
  }

  /** A data frame is mapped on one logical page only, whatever the address space. */
  ghost predicate OnePage(pt: Tables) {
    forall p, k, q, l :: DataAt(pt, p, k) && DataAt(pt, q, l) && pt[p][k].frame == pt[q][l].frame ==> k == l
  }

  /** phys_mem counts the mappings of every mapped data frame. */
  ghost predicate CountsOk(pt: Tables, phys: FrameCounts) {
    forall p, k :: DataAt(pt, p, k) ==> phys[pt[p][k].frame] == |DataPlaces(pt, pt[p][k].frame)|
  }

  /** A writable data page is not shared. */
  ghost predicate WritableIsPrivate(pt: Tables, phys: FrameCounts) {
    forall p, k :: DataAt(pt, p, k) && pt[p][k].rw ==> phys[pt[p][k].frame] == 1
  }

  ghost predicate RegionsOk(s: State) {
    && (forall i, j :: 0 <= i < j < NUM_REGIONS ==> s.shm[i].frame != s.shm[j].frame)
    && (forall i :: 0 <= i < NUM_REGIONS ==> s.shm[i].frame >= FIRST_DATA_FRAME && s.phys[s.shm[i].frame] == 1)
    && (forall p, k :: DataAt(s.pt, p, k) ==> !IsRegion(s.shm, s.pt[p][k].frame))
  }

  /** The references of region i that no shared page accounts for. */
  ghost function Unaccounted(pt: Tables, shm: Regions, i: int): int
    requires 0 <= i < NUM_REGIONS
  {
    shm[i].refs - |SharedPlaces(pt, shm[i].frame)|
  }

  /** The 384 pool frames: 8 of code, 10 of regions, 20 lost in each fork, the mapped data
      frames, and the free ones. */
  ghost predicate BudgetOk(s: State) {
    |FreePool(s)| + |MappedBelow(s.pt, NR_TASKS)| + NUM_PAG_DATA * (8 - |s.free|) == 366
  }

  ghost predicate Inv(s: State) {
    && SlotsOk(s.free) && TablesOk(s) && CodeOk(s) && LowOk(s) && SharedOk(s) && UserOk(s)
    && OnePage(s.pt) && CountsOk(s.pt, s.phys) && WritableIsPrivate(s.pt, s.phys)
    && RegionsOk(s) && BudgetOk(s)
  }

  // ---- consequences ----------------------------------------------------

  /** A mapped data frame is in use. */
  lemma MappedIsUsed(pt: Tables, phys: FrameCounts, p: Slot, k: int)
    requires CountsOk(pt, phys) && DataAt(pt, p, k)
    ensures phys[pt[p][k].frame] > 0
  {
    assert Maps(pt, p, k, pt[p][k].frame);
    assert (p, k) in DataPlaces(pt, pt[p][k].frame);
  }

  /** A counter never passes the number of address spaces, so the Byte never wraps. */
  lemma CountBounded(pt: Tables, phys: FrameCounts, p: Slot, k: int)
    requires OnePage(pt) && CountsOk(pt, phys) && DataAt(pt, p, k)
    ensures 1 <= phys[pt[p][k].frame] <= NR_TASKS
  {
    MappedIsUsed(pt, phys, p, k);
    var f := pt[p][k].frame;
    forall x | x in DataPlaces(pt, f) ensures 0 <= x.0 < NR_TASKS && x.1 == k {
      assert Maps(pt, x.0, x.1, f) && DataAt(pt, x.0, x.1);
    }
    ColumnSize(DataPlaces(pt, f), 0, NR_TASKS, k);
  }

  /** Two slots that map the same frame both map it read-only. */
  lemma SharedNotWritable(pt: Tables, phys: FrameCounts, p: Slot, q: Slot, k: int)
    requires CountsOk(pt, phys) && WritableIsPrivate(pt, phys)
    requires DataAt(pt, p, k) && DataAt(pt, q, k) && p != q && pt[p][k].frame == pt[q][k].frame
    ensures !pt[p][k].rw && phys[pt[p][k].frame] >= 2
  {
    var f := pt[p][k].frame;
    assert Maps(pt, p, k, f) && Maps(pt, q, k, f);
    SubsetSize({(p, k), (q, k)}, DataPlaces(pt, f));
  }

  /** At most eight slots are free. */
  lemma FreeBounded(free: seq<Slot>)
    requires SlotsOk(free)
    ensures |free| <= 8
  {
    SeqSetSize<int>(free);
    BoundedSize((set p: int | p in free), 2, 8);
  }

  ghost function LiveBelow(s: State, n: nat): set<int> {
    set p | 0 <= p < n && Live(s, p)
  }

  lemma LiveCount(s: State)
    requires SlotsOk(s.free)
    ensures |LiveBelow(s, NR_TASKS)| == 9 - |s.free|
  {
    SeqSetSize<int>(s.free);
    SplitSize(LiveBelow(s, NR_TASKS), set p: int | p in s.free, 1, 9);
  }

  /** The frames of the first n data pages. */
  lemma {:induction false} FramesOf(t: Table, n: nat) returns (own: set<Frame>)
    requires n <= NUM_PAG_DATA
    ensures |own| <= n
    ensures forall k :: PAG_LOG_INIT_DATA <= k < PAG_LOG_INIT_DATA + n ==> t[k].frame in own
  {
    if n == 0 {
      own := {};
    } else {
      own := FramesOf(t, n - 1);
      own := own + {t[PAG_LOG_INIT_DATA + n - 1].frame};
    }
  }

  lemma MappedStep(pt: Tables, n: nat, own: set<Frame>)
    requires n < NR_TASKS
    requires forall k :: DataAt(pt, n, k) ==> pt[n][k].frame in own
    ensures MappedBelow(pt, n + 1) <= MappedBelow(pt, n) + own
  {
    forall f | f in MappedBelow(pt, n + 1) ensures f in MappedBelow(pt, n) + own {
      var p, k :| 0 <= p < n + 1 && PAG_LOG_INIT_DATA <= k < PAG_LOG_SHARED && DataAt(pt, p, k) && pt[p][k].frame == f;
    }
  }

  lemma LiveStep(s: State, n: nat)
    ensures |LiveBelow(s, n + 1)| == |LiveBelow(s, n)| + if Live(s, n) then 1 else 0
  {
    assert LiveBelow(s, n + 1) == LiveBelow(s, n) + if Live(s, n) then {n} else {};
  }

  lemma {:induction false} MappedPerSlot(s: State, n: nat)
    requires TablesOk(s) && n <= NR_TASKS
    ensures |MappedBelow(s.pt, n)| <= NUM_PAG_DATA * |LiveBelow(s, n)|
  {
    if n == 0 {
      assert MappedBelow(s.pt, 0) == {};
    } else {
      MappedPerSlot(s, n - 1);
      var own: set<Frame> := {};
      if Live(s, n - 1) {
        own := FramesOf(s.pt[n - 1], NUM_PAG_DATA);
      }
      MappedStep(s.pt, n - 1, own);
      SubsetSize(MappedBelow(s.pt, n), MappedBelow(s.pt, n - 1) + own);
      LiveStep(s, n - 1);
    }
  }

  /** The pool is never short: k forks use at most 40 k of the 346 frames free at boot, so a split
      always finds a frame, and a fork always finds its twenty. */
  lemma PoolSuffices(s: State)
    requires SlotsOk(s.free) && TablesOk(s) && BudgetOk(s)
    ensures |FreePool(s)| >= 346 - 40 * (8 - |s.free|) >= 26
  {
    FreeBounded(s.free);
    LiveCount(s);
    MappedPerSlot(s, NR_TASKS);
  }
}
