/** The memory after boot, and the theorems about every run that starts there. */
module Boot {
  import opened Common
  import opened Paging
  import opened AddressSpaces
  import opened BootImage
  import opened CowInvariant
  import opened ForkProof
  import opened FaultProof
  import opened EagerRefinement
  import opened Counting

  // ---- the invariant at boot -------------------------------------------

  lemma BootPool()
    ensures |Pool(BootCounts(), NUM_PAG_KERNEL)| == 346
  {
    CountsAfterPool(BOOT_FRAMES);
    PoolOfFresh(BootCounts(), FIRST_FREE_FRAME);
  }

  lemma {:induction false} EvenSize(a: set<Frame>, lo: int, n: nat)
    requires forall f: Frame :: f in a <==> lo <= f < lo + 2 * n && (f - lo) % 2 == 0
    requires 0 <= lo && lo + 2 * n <= TOTAL_PAGES
    ensures |a| == n
    decreases n
  {
    if n == 0 {
      assert a == {};
    } else {
      var last: Frame := lo + 2 * (n - 1);
      EvenSize(a - {last}, lo, n - 1);
    }
  }

  lemma BootDataAt(g: Guards, p: int, k: int)
    ensures DataAt(BootTables(g), p, k) <==> p == 1 && IsData(k)
  {
  }

  lemma BootMapped(g: Guards)
    ensures |MappedBelow(BootTables(g), NR_TASKS)| == NUM_PAG_DATA
  {
    var pt := BootTables(g);
    forall f: Frame
      ensures f in MappedBelow(pt, NR_TASKS) <==> FIRST_DATA_FRAME <= f < FIRST_DATA_FRAME + 2 * NUM_PAG_DATA && (f - FIRST_DATA_FRAME) % 2 == 0
    {
      if FIRST_DATA_FRAME <= f < FIRST_DATA_FRAME + 2 * NUM_PAG_DATA && (f - FIRST_DATA_FRAME) % 2 == 0 {
        var k := PAG_LOG_INIT_DATA + (f - FIRST_DATA_FRAME) / 2;
        BootDataAt(g, 1, k);
        assert pt[1][k].frame == f;
      }
      if f in MappedBelow(pt, NR_TASKS) {
        var p, k :| 0 <= p < NR_TASKS && PAG_LOG_INIT_DATA <= k < PAG_LOG_SHARED && DataAt(pt, p, k) && pt[p][k].frame == f;
        BootDataAt(g, p, k);
      }
    }
    EvenSize(MappedBelow(pt, NR_TASKS), FIRST_DATA_FRAME, NUM_PAG_DATA);
  }

  lemma BootCountsOk(g: Guards)
    ensures OnePage(BootTables(g)) && CountsOk(BootTables(g), BootCounts()) && WritableIsPrivate(BootTables(g), BootCounts())
  {
    var pt := BootTables(g);
    forall p, k | DataAt(pt, p, k)
      ensures pt[p][k].frame == FIRST_DATA_FRAME + 2 * (k - PAG_LOG_INIT_DATA)
      ensures BootCounts()[pt[p][k].frame] == 1 == |DataPlaces(pt, pt[p][k].frame)|
    {
      BootDataAt(g, p, k);
      var f := pt[p][k].frame;
      forall q, l | 0 <= q < NR_TASKS && IsData(l) ensures Maps(pt, q, l, f) <==> q == p && l == k {
        BootDataAt(g, q, l);
      }
      assert DataPlaces(pt, f) == {(p, k)};
    }
  }

  lemma BootLive(g: Guards, ram: Ram)
    ensures forall p :: Live(BootState(g, ram), p) <==> p == 1
  {
    var s := BootState(g, ram);
    forall p ensures Live(s, p) <==> p == 1 {
      assert 2 <= p < NR_TASKS ==> s.free[p - 2] == p;
    }
  }

  lemma BootTablesOk(g: Guards, ram: Ram)
    ensures TablesOk(BootState(g, ram)) && SharedOk(BootState(g, ram))
  {
    var s := BootState(g, ram);
    BootLive(g, ram);
    forall p, k | DataAt(s.pt, p, k) ensures Live(s, p) && s.pt[p][k].frame >= FIRST_DATA_FRAME {
      BootDataAt(g, p, k);
    }
  }

  lemma BootRegionsOk(g: Guards, ram: Ram)
    ensures RegionsOk(BootState(g, ram)) && forall i :: 0 <= i < NUM_REGIONS ==> Unaccounted(BootTables(g), BootRegions(), i) == 0
  {
    var pt := BootTables(g);
    forall p, k | DataAt(pt, p, k) ensures !IsRegion(BootRegions(), pt[p][k].frame) {
      BootDataAt(g, p, k);
    }
    forall i | 0 <= i < NUM_REGIONS ensures SharedPlaces(pt, BootRegions()[i].frame) == {} {
      assert forall q, l :: 0 <= q < NR_TASKS && IsShared(l) ==> !pt[q][l].present;
    }
  }

  lemma BootCodeOk(g: Guards, ram: Ram)
    ensures CodeOk(BootState(g, ram)) && LowOk(BootState(g, ram)) && UserOk(BootState(g, ram))
  {
    var s := BootState(g, ram);
    BootLive(g, ram);
    forall p, k | Live(s, p) && PAG_LOG_INIT_CODE <= k < TOTAL_PAGES ensures UserAt(s.pt, p, k) {
      assert p == 1;
    }
    forall p: Slot, k | 0 <= k < PAG_LOG_INIT_CODE ensures LowAt(s, p, k) {
      assert s.pt[p][k].frame < NUM_PAG_KERNEL;
    }
  }

  lemma BootInv(g: Guards, ram: Ram)
    ensures Inv(BootState(g, ram))
  {
    BootTablesOk(g, ram);
    BootCodeOk(g, ram);
    BootCountsOk(g);
    BootRegionsOk(g, ram);
    BootPool();
    BootMapped(g);
  }

  // ---- the eager start -------------------------------------------------

  /** The pages below the code that init_table_pages leaves out. */
  ghost function LowHoles(g: Guards): set<int> {
    set k | 0 <= k < PAG_LOG_INIT_CODE && !KernelTable(g)[k].present
  }

  /** Task 1 owns copies of its twenty data pages; nothing is attached. */
  ghost function EagerBoot(g: Guards, ram: Ram): Eager {
    Eager(seq<Privates>(NR_TASKS, p requires 0 <= p < NR_TASKS =>
            seq<Page>(NUM_PAG_DATA, d requires 0 <= d < NUM_PAG_DATA => ram[FIRST_DATA_FRAME + 2 * d])),
          seq<Attachments>(NR_TASKS, _ => map[]),
          seq<set<int>>(NR_TASKS, _ => LowHoles(g)),
          seq<Page>(NUM_PAG_CODE, j requires 0 <= j < NUM_PAG_CODE => ram[NUM_PAG_KERNEL + 2 * j]),
          seq<Page>(NUM_REGIONS, i requires 0 <= i < NUM_REGIONS => ram[FIRST_REGION_FRAME + 2 * i]),
          [2, 3, 4, 5, 6, 7, 8, 9])
  }

  lemma BootRel(g: Guards, ram: Ram)
    ensures Rel(BootState(g, ram), EagerBoot(g, ram))
  {
    var s, e := BootState(g, ram), EagerBoot(g, ram);
    forall p, k | DataAt(s.pt, p, k) ensures e.priv[p][k - PAG_LOG_INIT_DATA] == s.ram[s.pt[p][k].frame] {
      BootDataAt(g, p, k);
    }
    BootLive(g, ram);
  }

  // ---- theorems over every run -----------------------------------------

  /** The state and the answers of the kernel after the given events. */
  ghost function Reached(g: Guards, ram: Ram, evs: seq<Event>): (r: (State, seq<Answer>))
    ensures Inv(r.0)
  {
    BootInv(g, ram);
    Run(BootState(g, ram), evs)
  }

  /** The eager system after the same events. */
  ghost function EagerReached(g: Guards, ram: Ram, evs: seq<Event>): (r: (Eager, seq<Answer>))
    ensures EagerShape(r.0)
  {
    EagerRun(EagerBoot(g, ram), evs)
  }

  lemma ReachedRel(g: Guards, ram: Ram, evs: seq<Event>)
    ensures Rel(Reached(g, ram, evs).0, EagerReached(g, ram, evs).0)
    ensures Reached(g, ram, evs).1 == EagerReached(g, ram, evs).1
  {
    BootInv(g, ram);
    BootRel(g, ram);
    RunRel(BootState(g, ram), EagerBoot(g, ram), evs);
  }

  /** Every process reads, and every call answers, as if each fork had copied all data pages
      eagerly into frames of its own. */
  lemma CopyOnWriteIsEagerCopy(g: Guards, ram: Ram, evs: seq<Event>)
    ensures Reached(g, ram, evs).1 == EagerReached(g, ram, evs).1
    ensures forall p: Slot, page: nat, off: nat ::
      Read(Reached(g, ram, evs).0, p, page, off) == EagerRead(EagerReached(g, ram, evs).0, p, page, off)
  {
    ReachedRel(g, ram, evs);
    forall p: Slot, page: nat, off: nat
      ensures Read(Reached(g, ram, evs).0, p, page, off) == EagerRead(EagerReached(g, ram, evs).0, p, page, off)
    {
      ReadRel(Reached(g, ram, evs).0, EagerReached(g, ram, evs).0, p, page, off);
    }
  }

  /** phys_mem counts the mappings of each data frame, the count fits the tasks, a writable
      page is the only mapping of its frame, and a frame appears at one page number only. */
  lemma FramesAreCounted(g: Guards, ram: Ram, evs: seq<Event>, p: Slot, k: int)
    requires DataAt(Reached(g, ram, evs).0.pt, p, k)
    ensures var s := Reached(g, ram, evs).0;
      && s.phys[s.pt[p][k].frame] == |DataPlaces(s.pt, s.pt[p][k].frame)|
      && 1 <= s.phys[s.pt[p][k].frame] <= NR_TASKS
      && (s.pt[p][k].rw ==> DataPlaces(s.pt, s.pt[p][k].frame) == {(p, k)})
      && (forall x :: x in DataPlaces(s.pt, s.pt[p][k].frame) ==> x.1 == k)
  {
    var s := Reached(g, ram, evs).0;
    var f := s.pt[p][k].frame;
    CountBounded(s.pt, s.phys, p, k);
    forall x | x in DataPlaces(s.pt, f) ensures DataAt(s.pt, x.0, x.1) && x.1 == k {
      assert Maps(s.pt, x.0, x.1, f) && DataAt(s.pt, x.0, x.1);
    }
    assert Maps(s.pt, p, k, f);
    if s.pt[p][k].rw {
      forall x | x in DataPlaces(s.pt, f) ensures x == (p, k) {
        WritableAlone(s.pt, s.phys, p, k, x.0, x.1);
      }
    }
  }

  lemma BootLow(g: Guards, ram: Ram)
    ensures LowLeft(EagerBoot(g, ram), |LowHoles(g)|) && 1 !in EagerBoot(g, ram).free && |LowHoles(g)| <= 3
  {
    SubsetSize(LowHoles(g), {0, g.low, g.high});
    BootLive(g, ram);
    assert forall p :: EagerLive(EagerBoot(g, ram), p) <==> Live(BootState(g, ram), p);
  }

  /** `referencias` of each region is the number of table entries of the shared range that map it
      and of the attaches that landed below the code; those are at most three. */
  lemma ReferencesAreCounted(g: Guards, ram: Ram, evs: seq<Event>, i: int)
    requires 0 <= i < NUM_REGIONS
    ensures var (s, answers) := Reached(g, ram, evs);
      && s.shm[i].refs == |SharedPlaces(s.pt, s.shm[i].frame)| + LowAttaches(evs, answers, i)
      && LowAttaches(evs, answers, i) <= 3
  {
    BootInv(g, ram);
    BootRegionsOk(g, ram);
    RunRefs(BootState(g, ram), evs, i);
    ReachedRel(g, ram, evs);
    BootLow(g, ram);
    var m := LowRun(EagerBoot(g, ram), evs, i, |LowHoles(g)|);
  }

  /** An attach lands below the code exactly when a page from the requested one on is absent there;
      only task 1, which was not forked, has such pages. */
  lemma AttachesLow(g: Guards, ram: Ram, evs: seq<Event>, p: Slot, id: nat, page: nat)
    requires Live(Reached(g, ram, evs).0, p) && id < NUM_REGIONS && page < TOTAL_PAGES
    ensures var s := Reached(g, ram, evs).0;
      && (LandsLow(s, p, id, page) <==> exists k :: page <= k < PAG_LOG_INIT_CODE && !s.pt[p][k].present)
      && (LandsLow(s, p, id, page) ==> p == 1)
  {
    ReachedRel(g, ram, evs);
    BootLow(g, ram);
    var m := LowRun(EagerBoot(g, ram), evs, id, |LowHoles(g)|);
    LandsLowAt(Reached(g, ram, evs).0, EagerReached(g, ram, evs).0, m, p, id, page);
  }

  predicate LandsLow(s: State, p: Slot, id: int, page: nat)
    requires page < TOTAL_PAGES
  {
    var outcome := Attach(s, p, id, page).1;
    outcome.At? && outcome.page < PAG_LOG_INIT_CODE
  }

  lemma LandsLowAt(s: State, e: Eager, n: nat, p: Slot, id: nat, page: nat)
    requires Rel(s, e) && LowLeft(e, n) && Live(s, p) && id < NUM_REGIONS && page < TOTAL_PAGES
    ensures LandsLow(s, p, id, page) <==> exists k :: page <= k < PAG_LOG_INIT_CODE && !s.pt[p][k].present
    ensures LandsLow(s, p, id, page) ==> p == 1
  {
    var k := FirstAbsent(s.pt[p], page);
    if k < PAG_LOG_INIT_CODE {
      assert !s.pt[p][k].present;
      assert k in e.low[p];
      assert EagerLive(e, p);
    }
  }

  /** In every reachable state each mapped page of a live task from the code on is open to the user. */
  lemma MappedIsUsers(g: Guards, ram: Ram, evs: seq<Event>, p: Slot, k: int)
    requires Live(Reached(g, ram, evs).0, p) && PAG_LOG_INIT_CODE <= k < TOTAL_PAGES
    ensures var e := Reached(g, ram, evs).0.pt[p][k]; e.present ==> e.user
  {
    assert UserAt(Reached(g, ram, evs).0.pt, p, k);
  }

  /** A fault on any page, mapped or not, finds a counter, so the handler never reports it, and
      never runs out of frames; fork fails exactly when all eight
      slots are in use. Each fork loses twenty frames for good, the rest is what tables map. */
  lemma FramesSuffice(g: Guards, ram: Ram, evs: seq<Event>, p: Slot)
    requires Live(Reached(g, ram, evs).0, p)
    ensures forall k :: 0 <= k < TOTAL_PAGES ==> FaultReady(Reached(g, ram, evs).0, p, k) && !Hangs(Reached(g, ram, evs).0, p, k)
    ensures Fork(Reached(g, ram, evs).0, p).1 != NoFrames
    ensures Fork(Reached(g, ram, evs).0, p).1 == NoSlot <==> Reached(g, ram, evs).0.free == []
    ensures var s := Reached(g, ram, evs).0;
      && |FreePool(s)| == 346 - (|MappedBelow(s.pt, NR_TASKS)| - NUM_PAG_DATA) - NUM_PAG_DATA * (8 - |s.free|)
      && |FreePool(s)| >= 346 - 40 * (8 - |s.free|) >= 26
  {
    var s := Reached(g, ram, evs).0;
    PoolSuffices(s);
    ForkKeepsInv(s, p);
    forall k | 0 <= k < TOTAL_PAGES ensures FaultReady(s, p, k) && !Hangs(s, p, k) {
      if IsData(k) {
        assert DataAt(s.pt, p, k);
        FaultKeepsInv(s, p, k);
      } else {
        FaultElsewhere(s, p, k);
      }
    }
  }

  // ---- the rollback of a fork that finds too few frames ----------------

  /** In any state, reachable or not, a fork that lacks frames leaves the counters as they
      were exactly when frame NUM_PAG_KERNEL was in use, since free_frame skips that frame. */
  lemma FailedForkRestoresCounters(s: State, p: Slot)
    requires Fork(s, p).1 == NoFrames
    ensures Fork(s, p).0.phys == s.phys <==> s.phys[NUM_PAG_KERNEL] != FREE_FRAME
  {
    if s.phys[NUM_PAG_KERNEL] == FREE_FRAME {
      assert Fork(s, p).0.phys[NUM_PAG_KERNEL] != s.phys[NUM_PAG_KERNEL];
    }
  }

  /** The failing side happens: one free frame, and that is NUM_PAG_KERNEL. */
  lemma FailedForkCanSpoilCounters(s: State, p: Slot)
    requires s.phys == Spoilable() && s.free == [2]
    ensures Fork(s, p).1 == NoFrames && Fork(s, p).0.phys != s.phys
  {
    PoolDependsOnFree(s.phys, Spoilable(), NUM_PAG_KERNEL);
    SpoilablePool(NUM_PAG_KERNEL + 2);
    FailedForkRestoresCounters(s, p);
  }

  function Spoilable(): FrameCounts {
    seq(TOTAL_PAGES, f requires 0 <= f < TOTAL_PAGES => if f == NUM_PAG_KERNEL then FREE_FRAME else USED_FRAME)
  }

  lemma {:induction false} SpoilablePool(i: nat)
    requires i > NUM_PAG_KERNEL
    ensures Pool(Spoilable(), i) == []
    decreases TOTAL_PAGES - i
  {
    if i < TOTAL_PAGES {
      SpoilablePool(i + 2);
    }
  }

  /** It maps nothing new in the child, changes no other table, no memory and no region, and
      moves the child's slot to the end of the free queue. */
  lemma FailedForkKeepsTheRest(s: State, p: Slot, q: Slot, k: int)
    requires Fork(s, p).1 == NoFrames && 0 <= k < TOTAL_PAGES
    ensures var s' := Fork(s, p).0;
      && (s'.pt[q][k] == s.pt[q][k] || (q == s.free[0] && IsData(k) && s'.pt[q][k] == NO_ENTRY))
      && s'.ram == s.ram && s'.shm == s.shm
      && multiset(s'.free) == multiset(s.free) && s'.free[|s'.free| - 1] == s.free[0]
  {
    assert s.free == [s.free[0]] + s.free[1..];
  }
}
