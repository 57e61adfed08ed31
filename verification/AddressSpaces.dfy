/** The memory of the kernel as a value, and what fork, page faults, user writes and
    shared-memory attaches do to it. */
module AddressSpaces {
  import opened Common
  import opened Paging

  /** struct shm_mem_struct, without the mark that only detach reads. */
  datatype Region = Region(frame: Frame, refs: int)

  type Tables = t: seq<Table> | |t| == NR_TASKS witness seq<Table>(NR_TASKS, _ => EMPTY_TABLE)
  type Ram = m: seq<Page> | |m| == TOTAL_PAGES witness seq<Page>(TOTAL_PAGES, _ => ZERO_PAGE)
  type Regions = r: seq<Region> | |r| == NUM_REGIONS witness seq(NUM_REGIONS, _ => Region(0, 0))

  /** `free` is the free queue, first slot first. */
  datatype State = State(phys: FrameCounts, pt: Tables, ram: Ram, shm: Regions, free: seq<Slot>)

  predicate IsCode(k: int) { PAG_LOG_INIT_CODE <= k < PAG_LOG_INIT_DATA }
  predicate IsData(k: int) { PAG_LOG_INIT_DATA <= k < PAG_LOG_SHARED }
  predicate IsShared(k: int) { PAG_LOG_SHARED <= k < TOTAL_PAGES }

  /** A slot that has an address space; slot 0 is the idle task. */
  predicate Live(s: State, p: int) {
    1 <= p < NR_TASKS && p !in s.free
  }

  function FreePool(s: State): seq<Frame> {
    Pool(s.phys, NUM_PAG_KERNEL)
  }

  // ---- fork ------------------------------------------------------------

  datatype ForkOutcome = Child(slot: Slot) | NoSlot | NoFrames

  function DataFrames(t: Table): (r: seq<Frame>)
    ensures |r| == NUM_PAG_DATA
  {
    seq<Frame>(NUM_PAG_DATA, k requires 0 <= k < NUM_PAG_DATA => t[PAG_LOG_INIT_DATA + k].frame)
  }

  /** `++` on a Byte wraps. */
  function Incremented(b: int): Byte { (b + 1) % 256 }

  /** One more mapping for every frame of `fs`. */
  function Bump(phys: FrameCounts, fs: seq<Frame>): FrameCounts
    decreases |fs|
  {
    if fs == [] then phys
    else
      var before := Bump(phys, fs[..|fs| - 1]);
      var f := fs[|fs| - 1];
      before[f := Incremented(before[f])]
  }

  /** The child's table after a fork: code and data of the parent, data read-only,
      and the parent's shared pages. */
  function ShareTable(parent: Table, child: Table): Table {
    seq(TOTAL_PAGES, k requires 0 <= k < TOTAL_PAGES =>
      if k < PAG_LOG_INIT_DATA then Mapped(parent[k].frame)
      else if k < PAG_LOG_SHARED then Mapped(parent[k].frame).(rw := false)
      else if parent[k].frame != 0 then Mapped(parent[k].frame)
      else child[k])
  }

  /** The parent's table after a fork. */
  function DenyWrites(t: Table): Table {
    seq(TOTAL_PAGES, k requires 0 <= k < TOTAL_PAGES =>
      if IsData(k) then t[k].(rw := false) else t[k])
  }

  /** The shared pages of one table, below page `hi`, that map frame f. */
  function Attached(t: Table, f: Frame, hi: nat): set<int> {
    set k | PAG_LOG_SHARED <= k < hi && k < TOTAL_PAGES && t[k].frame == f
  }

  /** One more reference to a region for every page through which the child inherits it. */
  function Inherit(shm: Regions, t: Table, hi: nat): Regions {
    seq(NUM_REGIONS, i requires 0 <= i < NUM_REGIONS =>
      if shm[i].frame == 0 then shm[i]
      else shm[i].(refs := shm[i].refs + |Attached(t, shm[i].frame, hi)|))
  }

  /** The child's table after a fork that got only n frames: its first n data pages are unmapped. */
  function Unmapped(t: Table, n: nat): Table {
    seq(TOTAL_PAGES, k requires 0 <= k < TOTAL_PAGES =>
      if PAG_LOG_INIT_DATA <= k < PAG_LOG_INIT_DATA + n then NO_ENTRY else t[k])
  }

  /** The counters after the rollback of a fork. free_frame ignores frame NUM_PAG_KERNEL, so
      that frame stays used when the rolled back fork had taken it. */
  function RolledBack(phys: FrameCounts): FrameCounts {
    if phys[NUM_PAG_KERNEL] == FREE_FRAME then phys[NUM_PAG_KERNEL := USED_FRAME] else phys
  }

  function ForkOk(s: State, p: Slot): State
    requires s.free != []
    requires |FreePool(s)| >= NUM_PAG_DATA
  {
    var c := s.free[0];
    var taken := Mark(s.phys, FreePool(s)[..NUM_PAG_DATA]);
    State(Bump(taken, DataFrames(s.pt[p])),
          s.pt[c := ShareTable(s.pt[p], s.pt[c])][p := DenyWrites(s.pt[p])],
          s.ram,
          Inherit(s.shm, s.pt[p], TOTAL_PAGES),
          s.free[1..])
  }

  function ForkFailed(s: State): State
    requires s.free != []
    requires |FreePool(s)| < NUM_PAG_DATA
  {
    var c := s.free[0];
    State(RolledBack(s.phys), s.pt[c := Unmapped(s.pt[c], |FreePool(s)|)], s.ram, s.shm, s.free[1..] + [c])
  }

  function Fork(s: State, p: Slot): (State, ForkOutcome) {
    if s.free == [] then (s, NoSlot)
    else if |FreePool(s)| < NUM_PAG_DATA then (ForkFailed(s), NoFrames)
    else (ForkOk(s, p), Child(s.free[0]))
  }

  // ---- page fault ------------------------------------------------------

  /** The page through which the fault handler reaches the new frame. */
  const WINDOW := PAG_LOG_SHARED + 1

  /** The handler prints a message and never returns. */
  predicate Hangs(s: State, p: Slot, page: nat)
    requires page < TOTAL_PAGES
  {
    s.phys[s.pt[p][page].frame] == 0
  }

  predicate MustSplit(s: State, p: Slot, page: nat)
    requires page < TOTAL_PAGES
  {
    s.phys[s.pt[p][page].frame] > 1
  }

  /** What the handler needs and does not check: a page to split is present, and a frame is free. */
  predicate FaultReady(s: State, p: Slot, page: nat) {
    page < TOTAL_PAGES && (MustSplit(s, p, page) ==> s.pt[p][page].present && FreePool(s) != [])
  }

  /** The table after the window page was lent to the copy and given back. */
  function WindowRestored(t: Table): Table {
    t[WINDOW := if t[WINDOW].present then Mapped(t[WINDOW].frame) else NO_ENTRY]
  }

  /** The new frame gets the bytes of the page; a fault on the window page itself copies nothing. */
  function Split(s: State, p: Slot, page: nat): State
    requires FaultReady(s, p, page) && MustSplit(s, p, page)
  {
    var f := s.pt[p][page].frame;
    var g := FreePool(s)[0];
    s.(phys := s.phys[f := s.phys[f] - 1][g := USED_FRAME],
       ram := if page == WINDOW then s.ram else s.ram[g := s.ram[f]],
       pt := s.pt[p := WindowRestored(s.pt[p])[page := Mapped(g)]])
  }

  function Fault(s: State, p: Slot, page: nat): State
    requires FaultReady(s, p, page)
  {
    if Hangs(s, p, page) then s
    else if MustSplit(s, p, page) then Split(s, p, page)
    else s.(pt := s.pt[p := s.pt[p][page := s.pt[p][page].(rw := true)]])
  }

  // ---- user reads and writes -------------------------------------------

  /** A page of the code, data or shared range that is mapped for the user; on any other entry the
      processor faults again and again. */
  predicate UserPage(s: State, p: Slot, page: nat) {
    PAG_LOG_INIT_CODE <= page < TOTAL_PAGES && s.pt[p][page].present && s.pt[p][page].user
  }

  function Store(s: State, f: Frame, off: nat, b: Byte): State
    requires off < PAGE_SIZE
  {
    s.(ram := s.ram[f := s.ram[f][off := b]])
  }

  /** A write to a mapped page gets past its fault. */
  predicate WriteReady(s: State, p: Slot, page: nat) {
    UserPage(s, p, page) && (s.pt[p][page].rw || (!Hangs(s, p, page) && FaultReady(s, p, page)))
  }

  /** The processor faults on a read-only page and then runs the write again. */
  function Write(s: State, p: Slot, page: nat, off: nat, b: Byte): State
    requires off < PAGE_SIZE
    requires WriteReady(s, p, page)
  {
    var s' := if s.pt[p][page].rw then s else Fault(s, p, page);
    Store(s', s'.pt[p][page].frame, off, b)
  }

  // ---- shmat -----------------------------------------------------------

  datatype AttachOutcome = At(page: nat) | BadRegion | NoPage

  /** The first page from k on that maps nothing, or TOTAL_PAGES. */
  function FirstAbsent(t: Table, k: nat): (r: nat)
    requires k <= TOTAL_PAGES
    ensures k <= r <= TOTAL_PAGES
    ensures r < TOTAL_PAGES ==> !t[r].present
    ensures forall j :: k <= j < r ==> t[j].present
    decreases TOTAL_PAGES - k
  {
    if k == TOTAL_PAGES || !t[k].present then k else FirstAbsent(t, k + 1)
  }

  function Attach(s: State, p: Slot, id: int, page: nat): (State, AttachOutcome)
    requires page < TOTAL_PAGES
  {
    if !(0 <= id < NUM_REGIONS) then (s, BadRegion)
    else
      var k := FirstAbsent(s.pt[p], page);
      if k == TOTAL_PAGES then (s, NoPage)
      else (s.(pt := s.pt[p := s.pt[p][k := Mapped(s.shm[id].frame)]],
               shm := s.shm[id := s.shm[id].(refs := s.shm[id].refs + 1)]), At(k))
  }
}
