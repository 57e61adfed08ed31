/** The page-fault handler, user writes and shmat keep the memory invariant. */
module FaultProof {
  import opened Common
  import opened Paging
  import opened AddressSpaces
  import opened CowInvariant
  import opened Counting

  // ---- one changed entry -----------------------------------------------

  function Remap(pt: Tables, p: Slot, k: nat, e: Entry): Tables
    requires k < TOTAL_PAGES
  {
    pt[p := pt[p][k := e]]
  }

  lemma RemapMaps(pt: Tables, p: Slot, k: nat, e: Entry, q: int, l: int, f: Frame)
    requires k < TOTAL_PAGES
    ensures Maps(Remap(pt, p, k, e), q, l, f) <==>
      if q == p && l == k then e.present && e.frame == f else Maps(pt, q, l, f)
  {
  }

  /** Frame f loses the place (p, k) or gains it. */
  lemma RemapPlaces(pt: Tables, p: Slot, k: nat, e: Entry, lo: nat, hi: nat, f: Frame)
    requires k < TOTAL_PAGES
    ensures Places(Remap(pt, p, k, e), lo, hi, f) ==
      if lo <= k < hi && e.present && e.frame == f then Places(pt, lo, hi, f) + {(p, k)}
      else Places(pt, lo, hi, f) - {(p, k)}
  {
    var pt' := Remap(pt, p, k, e);
    forall q, l | 0 <= q < NR_TASKS && lo <= l < hi
      ensures Maps(pt', q, l, f) <==> if q == p && l == k then e.present && e.frame == f else Maps(pt, q, l, f)
    {
      RemapMaps(pt, p, k, e, q, l, f);
    }
  }

  /** Writing through the window page leaves its mapping as it was. */
  lemma WindowKept(s: State, p: Slot)
    requires SharedOk(s)
    ensures WindowRestored(s.pt[p]) == s.pt[p]
  {
    assert IsShared(WINDOW);
    assert s.pt[p][WINDOW] == NO_ENTRY || s.pt[p][WINDOW] == Mapped(s.pt[p][WINDOW].frame);
  }

  /** No table maps a free frame. */
  lemma FreeIsUnmapped(pt: Tables, phys: FrameCounts, g: Frame)
    requires CountsOk(pt, phys) && phys[g] == FREE_FRAME
    ensures forall q, l :: DataAt(pt, q, l) ==> pt[q][l].frame != g
    ensures DataPlaces(pt, g) == {}
  {
    forall q, l | DataAt(pt, q, l) ensures pt[q][l].frame != g {
      MappedIsUsed(pt, phys, q, l);
    }
    forall q, l | 0 <= q < NR_TASKS && PAG_LOG_INIT_DATA <= l < PAG_LOG_SHARED ensures !Maps(pt, q, l, g) {
      assert DataAt(pt, q, l) <==> pt[q][l].present;
    }
  }

  // ---- data pages that keep their frames -------------------------------

  ghost predicate SameData(pt: Tables, pt': Tables) {
    forall q: Slot, l :: IsData(l) ==> pt'[q][l].present == pt[q][l].present && pt'[q][l].frame == pt[q][l].frame
  }

  lemma SameDataPlaces(pt: Tables, pt': Tables, f: Frame)
    requires SameData(pt, pt')
    ensures DataPlaces(pt', f) == DataPlaces(pt, f)
  {
    forall q, l | 0 <= q < NR_TASKS && IsData(l) ensures Maps(pt', q, l, f) <==> Maps(pt, q, l, f) {
    }
  }

  lemma SameDataMapped(pt: Tables, pt': Tables)
    requires SameData(pt, pt')
    ensures MappedBelow(pt', NR_TASKS) == MappedBelow(pt, NR_TASKS)
  {
    forall q, l ensures DataAt(pt', q, l) <==> DataAt(pt, q, l) {
    }
  }

  lemma SameDataCounts(pt: Tables, pt': Tables, phys: FrameCounts)
    requires SameData(pt, pt') && OnePage(pt) && CountsOk(pt, phys)
    ensures OnePage(pt') && CountsOk(pt', phys)
  {
    forall q, l | DataAt(pt', q, l)
      ensures DataAt(pt, q, l)
      ensures phys[pt'[q][l].frame] == |DataPlaces(pt', pt'[q][l].frame)|
    {
      assert DataAt(pt, q, l);
      SameDataPlaces(pt, pt', pt[q][l].frame);
    }
  }

  lemma SameDataWritable(pt: Tables, pt': Tables, phys: FrameCounts)
    requires SameData(pt, pt') && WritableIsPrivate(pt, phys)
    requires forall q: Slot, l :: IsData(l) && pt'[q][l].rw ==> pt[q][l].rw || phys[pt[q][l].frame] == 1
    ensures WritableIsPrivate(pt', phys)
  {
    forall q, l | DataAt(pt', q, l) && pt'[q][l].rw ensures phys[pt'[q][l].frame] == 1 {
      assert DataAt(pt, q, l);
    }
  }

  /** What depends on frames, counters and free slots only. */
  lemma SameDataKeeps(s: State, s': State)
    requires SameData(s.pt, s'.pt) && s'.phys == s.phys && s'.free == s.free
    requires OnePage(s.pt) && CountsOk(s.pt, s.phys) && BudgetOk(s) && SlotsOk(s.free)
    ensures OnePage(s'.pt) && CountsOk(s'.pt, s'.phys) && BudgetOk(s') && SlotsOk(s'.free)
  {
    SameDataMapped(s.pt, s'.pt);
    SameDataCounts(s.pt, s'.pt, s.phys);
  }

  // ---- the split -------------------------------------------------------

  /** What Split does to counters and tables, once the window is known to be restored. */
  ghost predicate Splits(pt: Tables, phys: FrameCounts, p: Slot, k: int, g: Frame, pt': Tables, phys': FrameCounts) {
    && DataAt(pt, p, k) && phys[pt[p][k].frame] > 1 && phys[g] == FREE_FRAME
    && phys' == phys[pt[p][k].frame := phys[pt[p][k].frame] - 1][g := USED_FRAME]
    && pt' == Remap(pt, p, k, Mapped(g))
  }

  lemma SplitOnePage(pt: Tables, phys: FrameCounts, p: Slot, k: int, g: Frame, pt': Tables, phys': FrameCounts)
    requires Splits(pt, phys, p, k, g, pt', phys') && OnePage(pt) && CountsOk(pt, phys)
    ensures OnePage(pt')
    ensures forall q, l :: DataAt(pt', q, l) <==> DataAt(pt, q, l)
  {
    FreeIsUnmapped(pt, phys, g);
    forall q, l ensures DataAt(pt', q, l) <==> DataAt(pt, q, l) {
    }
  }

  /** The new frame has one mapping, the old one loses one, and no other frame changes. */
  lemma SplitPlaces(pt: Tables, phys: FrameCounts, p: Slot, k: int, g: Frame, pt': Tables, phys': FrameCounts, f: Frame)
    requires Splits(pt, phys, p, k, g, pt', phys') && CountsOk(pt, phys)
    ensures f == g ==> DataPlaces(pt', f) == {(p, k)}
    ensures f == pt[p][k].frame ==> |DataPlaces(pt', f)| == |DataPlaces(pt, f)| - 1
    ensures f != g && f != pt[p][k].frame ==> DataPlaces(pt', f) == DataPlaces(pt, f)
  {
    FreeIsUnmapped(pt, phys, g);
    RemapPlaces(pt, p, k, Mapped(g), PAG_LOG_INIT_DATA, PAG_LOG_SHARED, f);
    assert Maps(pt, p, k, pt[p][k].frame);
  }

  lemma SplitCounts(pt: Tables, phys: FrameCounts, p: Slot, k: int, g: Frame, pt': Tables, phys': FrameCounts)
    requires Splits(pt, phys, p, k, g, pt', phys') && CountsOk(pt, phys)
    ensures CountsOk(pt', phys')
  {
    forall q, l | DataAt(pt', q, l) ensures phys'[pt'[q][l].frame] == |DataPlaces(pt', pt'[q][l].frame)| {
      SplitPlaces(pt, phys, p, k, g, pt', phys', pt'[q][l].frame);
      assert DataAt(pt, q, l);
    }
  }

  lemma SplitWritable(pt: Tables, phys: FrameCounts, p: Slot, k: int, g: Frame, pt': Tables, phys': FrameCounts)
    requires Splits(pt, phys, p, k, g, pt', phys') && CountsOk(pt, phys) && WritableIsPrivate(pt, phys)
    ensures WritableIsPrivate(pt', phys')
  {
    FreeIsUnmapped(pt, phys, g);
    forall q, l | DataAt(pt', q, l) && pt'[q][l].rw ensures phys'[pt'[q][l].frame] == 1 {
      assert DataAt(pt, q, l);
    }
  }

  lemma SplitMappedAfter(pt: Tables, phys: FrameCounts, p: Slot, k: int, g: Frame, pt': Tables, phys': FrameCounts)
    requires Splits(pt, phys, p, k, g, pt', phys')
    ensures MappedBelow(pt', NR_TASKS) <= MappedBelow(pt, NR_TASKS) + {g}
  {
    forall h | h in MappedBelow(pt', NR_TASKS) ensures h in MappedBelow(pt, NR_TASKS) + {g} {
      var q, l :| 0 <= q < NR_TASKS && PAG_LOG_INIT_DATA <= l < PAG_LOG_SHARED && DataAt(pt', q, l) && pt'[q][l].frame == h;
      assert DataAt(pt, q, l);
    }
  }

  /** The old frame keeps a mapping in another slot. */
  lemma SplitKeepsOld(pt: Tables, phys: FrameCounts, p: Slot, k: int, g: Frame, pt': Tables, phys': FrameCounts)
    returns (q: Slot, l: int)
    requires Splits(pt, phys, p, k, g, pt', phys') && CountsOk(pt, phys)
    ensures DataAt(pt', q, l) && pt'[q][l].frame == pt[p][k].frame
  {
    var f := pt[p][k].frame;
    SplitPlaces(pt, phys, p, k, g, pt', phys', f);
    var x := Member(DataPlaces(pt', f));
    assert Maps(pt', x.0, x.1, f);
    q, l := x.0, x.1;
  }

  lemma SplitMappedBefore(pt: Tables, phys: FrameCounts, p: Slot, k: int, g: Frame, pt': Tables, phys': FrameCounts)
    requires Splits(pt, phys, p, k, g, pt', phys') && CountsOk(pt, phys)
    ensures MappedBelow(pt, NR_TASKS) + {g} <= MappedBelow(pt', NR_TASKS)
    ensures g !in MappedBelow(pt, NR_TASKS)
  {
    FreeIsUnmapped(pt, phys, g);
    var a, b := SplitKeepsOld(pt, phys, p, k, g, pt', phys');
    assert DataAt(pt', p, k);
    forall h | h in MappedBelow(pt, NR_TASKS) ensures h in MappedBelow(pt', NR_TASKS) {
      var q, l :| 0 <= q < NR_TASKS && PAG_LOG_INIT_DATA <= l < PAG_LOG_SHARED && DataAt(pt, q, l) && pt[q][l].frame == h;
      assert DataAt(pt', q, l);
    }
  }

  lemma SplitMapped(pt: Tables, phys: FrameCounts, p: Slot, k: int, g: Frame, pt': Tables, phys': FrameCounts)
    requires Splits(pt, phys, p, k, g, pt', phys') && CountsOk(pt, phys)
    ensures |MappedBelow(pt', NR_TASKS)| == |MappedBelow(pt, NR_TASKS)| + 1
  {
    SplitMappedAfter(pt, phys, p, k, g, pt', phys');
    SplitMappedBefore(pt, phys, p, k, g, pt', phys');
    assert MappedBelow(pt', NR_TASKS) == MappedBelow(pt, NR_TASKS) + {g};
  }

  lemma SplitPool(phys: FrameCounts, f: Frame)
    requires phys[f] > 1 && Pool(phys, NUM_PAG_KERNEL) != []
    ensures var g := Pool(phys, NUM_PAG_KERNEL)[0];
      phys[g] == FREE_FRAME && |Pool(phys[f := phys[f] - 1][g := USED_FRAME], NUM_PAG_KERNEL)| == |Pool(phys, NUM_PAG_KERNEL)| - 1
  {
    var less := phys[f := phys[f] - 1];
    PoolDependsOnFree(phys, less, NUM_PAG_KERNEL);
    PoolAfterTake(less, NUM_PAG_KERNEL);
    PoolMembers(phys, NUM_PAG_KERNEL, Pool(phys, NUM_PAG_KERNEL)[0]);
  }

  // ---- what no step on data pages touches ------------------------------

  /** A step of slot p that remaps a data page of p. */
  ghost predicate DataStep(s: State, s': State, p: Slot, k: int, e: Entry) {
    && DataAt(s.pt, p, k) && e.present && e.frame >= FIRST_DATA_FRAME
    && s'.pt == Remap(s.pt, p, k, e) && s'.shm == s.shm && s'.free == s.free
    && (forall h: Frame :: s.phys[h] == 1 ==> s'.phys[h] == 1)
  }

  lemma DataStepTables(s: State, s': State, p: Slot, k: int, e: Entry)
    requires DataStep(s, s', p, k, e) && TablesOk(s) && SharedOk(s) && CodeOk(s) && LowOk(s)
    ensures TablesOk(s') && SharedOk(s') && CodeOk(s') && LowOk(s')
  {
    forall q ensures Live(s', q) <==> Live(s, q) {
    }
    forall q, l | DataAt(s'.pt, q, l) ensures DataAt(s.pt, q, l) {
    }
    forall q: Slot, l | IsShared(l) ensures s'.pt[q][l] == s.pt[q][l] {
    }
    forall q: Slot, l | 0 <= l < PAG_LOG_INIT_CODE ensures LowAt(s', q, l) {
      assert LowAt(s, q, l);
    }
  }

  lemma DataStepRegions(s: State, s': State, p: Slot, k: int, e: Entry)
    requires DataStep(s, s', p, k, e) && RegionsOk(s)
    requires !IsRegion(s.shm, e.frame)
    ensures RegionsOk(s')
  {
    forall q, l | DataAt(s'.pt, q, l) ensures !IsRegion(s.shm, s'.pt[q][l].frame) {
      assert DataAt(s.pt, q, l);
    }
  }

  /** A remapped page outside the shared range accounts for no reference. */
  lemma RemapRefs(pt: Tables, shm: Regions, p: Slot, k: nat, e: Entry, i: int)
    requires k < PAG_LOG_SHARED && 0 <= i < NUM_REGIONS
    ensures Unaccounted(Remap(pt, p, k, e), shm, i) == Unaccounted(pt, shm, i)
  {
    RemapPlaces(pt, p, k, e, PAG_LOG_SHARED, TOTAL_PAGES, shm[i].frame);
    assert (p, k) !in SharedPlaces(pt, shm[i].frame);
  }

  /** A remapped page that is as open to the user as before, or more. */
  lemma RemapUser(s: State, s': State, p: Slot, k: nat, e: Entry)
    requires UserOk(s) && s'.free == s.free && k < TOTAL_PAGES && s'.pt == Remap(s.pt, p, k, e)
    requires e.user || (e.user == s.pt[p][k].user && e.present == s.pt[p][k].present)
    ensures UserOk(s')
  {
    forall q, l | Live(s', q) && PAG_LOG_INIT_CODE <= l < TOTAL_PAGES ensures UserAt(s'.pt, q, l) {
      assert Live(s, q) && UserAt(s.pt, q, l);
    }
  }

  // ---- the handler -----------------------------------------------------

  lemma EnableSame(pt: Tables, phys: FrameCounts, p: Slot, k: int)
    requires DataAt(pt, p, k) && phys[pt[p][k].frame] == 1 && WritableIsPrivate(pt, phys)
    ensures var pt' := Remap(pt, p, k, pt[p][k].(rw := true));
      SameData(pt, pt') && WritableIsPrivate(pt', phys)
  {
    var pt' := Remap(pt, p, k, pt[p][k].(rw := true));
    SameDataWritable(pt, pt', phys);
  }

  lemma EnableKeepsInv(s: State, p: Slot, k: int)
    requires Inv(s) && DataAt(s.pt, p, k) && s.phys[s.pt[p][k].frame] == 1
    ensures Inv(s.(pt := Remap(s.pt, p, k, s.pt[p][k].(rw := true))))
  {
    var e := s.pt[p][k].(rw := true);
    var s' := s.(pt := Remap(s.pt, p, k, e));
    EnableSame(s.pt, s.phys, p, k);
    SameDataKeeps(s, s');
    DataStepTables(s, s', p, k, e);
    DataStepRegions(s, s', p, k, e);
    RemapUser(s, s', p, k, e);
  }

  lemma SplitIsStep(s: State, p: Slot, k: int)
    requires SharedOk(s) && LowOk(s) && CodeOk(s) && RegionsOk(s) && DataAt(s.pt, p, k)
    requires s.phys[s.pt[p][k].frame] > 1 && FreePool(s) != []
    ensures var g, s' := FreePool(s)[0], Split(s, p, k);
      && Splits(s.pt, s.phys, p, k, g, s'.pt, s'.phys)
      && DataStep(s, s', p, k, Mapped(g))
      && !IsRegion(s.shm, g)
    ensures |FreePool(Split(s, p, k))| == |FreePool(s)| - 1
  {
    WindowKept(s, p);
    SplitPool(s.phys, s.pt[p][k].frame);
    FreeIsData(s);
  }

  /** The pool has no frame of the kernel or the code. */
  lemma FreeIsData(s: State)
    requires CodeOk(s) && FreePool(s) != []
    ensures FreePool(s)[0] >= FIRST_DATA_FRAME
  {
    var g := FreePool(s)[0];
    PoolMembers(s.phys, NUM_PAG_KERNEL, g);
    forall f: Frame | NUM_PAG_KERNEL <= f < FIRST_DATA_FRAME && (f - NUM_PAG_KERNEL) % 2 == 0 ensures s.phys[f] == 1 {
      assert f == CodeFrame(PAG_LOG_INIT_CODE + (f - NUM_PAG_KERNEL) / 2);
    }
  }

  lemma SplitKeepsInv(s: State, p: Slot, k: int)
    requires Inv(s) && DataAt(s.pt, p, k) && s.phys[s.pt[p][k].frame] > 1 && FreePool(s) != []
    ensures Inv(Split(s, p, k))
  {
    var g, s' := FreePool(s)[0], Split(s, p, k);
    SplitIsStep(s, p, k);
    SplitOnePage(s.pt, s.phys, p, k, g, s'.pt, s'.phys);
    SplitCounts(s.pt, s.phys, p, k, g, s'.pt, s'.phys);
    SplitWritable(s.pt, s.phys, p, k, g, s'.pt, s'.phys);
    SplitMapped(s.pt, s.phys, p, k, g, s'.pt, s'.phys);
    DataStepTables(s, s', p, k, Mapped(g));
    DataStepRegions(s, s', p, k, Mapped(g));
    RemapUser(s, s', p, k, Mapped(g));
  }

  /** In a reachable state the handler finds a counter and, when it must split, a frame;
      it keeps the invariant and makes the page writable. */
  lemma FaultKeepsInv(s: State, p: Slot, k: int)
    requires Inv(s) && DataAt(s.pt, p, k)
    ensures FaultReady(s, p, k) && !Hangs(s, p, k)
    ensures Inv(Fault(s, p, k)) && Fault(s, p, k).pt[p][k].rw
  {
    PoolSuffices(s);
    CountBounded(s.pt, s.phys, p, k);
    if MustSplit(s, p, k) {
      SplitKeepsInv(s, p, k);
    } else {
      EnableKeepsInv(s, p, k);
    }
  }

  /** Outside the data pages every entry, absent or not, has a frame that counts 1: the handler
      never hangs and never splits, but sets one bit and leaves an absent page absent. */
  lemma FaultElsewhere(s: State, p: Slot, k: nat)
    requires Inv(s) && Live(s, p) && k < TOTAL_PAGES && !IsData(k)
    ensures FaultReady(s, p, k) && !Hangs(s, p, k)
    ensures Fault(s, p, k) == s.(pt := Remap(s.pt, p, k, s.pt[p][k].(rw := true)))
  {
    var f := s.pt[p][k].frame;
    assert s.phys[f] == 1 by {
      if IsCode(k) {
        assert f == CodeFrame(k);
      } else if k < PAG_LOG_INIT_CODE {
        assert LowAt(s, p, k);
      } else {
        assert IsShared(k);
        assert s.pt[p][k] == NO_ENTRY || IsRegion(s.shm, f);
      }
    }
  }

  lemma CodeFaultKeepsInv(s: State, p: Slot, k: nat)
    requires Inv(s) && Live(s, p) && IsCode(k)
    ensures Inv(Fault(s, p, k))
  {
    FaultElsewhere(s, p, k);
    EnableCode(s, s.(pt := Remap(s.pt, p, k, s.pt[p][k].(rw := true))), p, k);
  }

  lemma EnableCode(s: State, s': State, p: Slot, k: nat)
    requires Inv(s) && IsCode(k)
    requires s' == s.(pt := Remap(s.pt, p, k, s.pt[p][k].(rw := true)))
    ensures Inv(s')
  {
    SameDataKeeps(s, s');
    SameDataWritable(s.pt, s'.pt, s.phys);
    SameOutside(s, s', p, k);
    SameFrames(s, s', p, k);
    RemapUser(s, s', p, k, s'.pt[p][k]);
  }

  /** A step that changes a page of p but not its frame. */
  lemma SameFrames(s: State, s': State, p: Slot, k: nat)
    requires k < TOTAL_PAGES && s'.pt == Remap(s.pt, p, k, s'.pt[p][k]) && s'.phys == s.phys && s'.free == s.free && s'.shm == s.shm
    requires s'.pt[p][k].frame == s.pt[p][k].frame && s'.pt[p][k].present == s.pt[p][k].present
    requires CodeOk(s) && LowOk(s)
    ensures CodeOk(s') && LowOk(s')
  {
    forall q, l | Live(s', q) && IsCode(l) ensures s'.pt[q][l].present && s'.pt[q][l].frame == CodeFrame(l) {
      assert Live(s, q) && s.pt[q][l].frame == CodeFrame(l);
    }
    forall q: Slot, l | 0 <= l < PAG_LOG_INIT_CODE ensures LowAt(s', q, l) {
      assert LowAt(s, q, l);
    }
  }

  /** A step that remaps a page of p below the data. */
  lemma SameOutside(s: State, s': State, p: Slot, k: nat)
    requires k < PAG_LOG_INIT_DATA && s'.pt == Remap(s.pt, p, k, s'.pt[p][k])
    requires s'.phys == s.phys && s'.free == s.free && (forall i :: 0 <= i < NUM_REGIONS ==> s'.shm[i].frame == s.shm[i].frame)
    requires TablesOk(s) && SharedOk(s) && RegionsOk(s)
    ensures TablesOk(s') && SharedOk(s') && RegionsOk(s')
    ensures forall f :: IsRegion(s'.shm, f) <==> IsRegion(s.shm, f)
  {
    forall f ensures IsRegion(s'.shm, f) <==> IsRegion(s.shm, f) {
      if i :| 0 <= i < NUM_REGIONS && s.shm[i].frame == f {
        assert s'.shm[i].frame == f;
      }
    }
    forall q ensures Live(s', q) <==> Live(s, q) {
    }
    forall q, l | DataAt(s'.pt, q, l) ensures DataAt(s.pt, q, l) {
    }
    forall q: Slot, l | IsShared(l) ensures s'.pt[q][l] == s.pt[q][l] {
    }
  }

  lemma StoreKeepsInv(s: State, f: Frame, off: nat, b: Byte)
    requires Inv(s) && off < PAGE_SIZE
    ensures Inv(Store(s, f, off, b))
  {
    var s' := Store(s, f, off, b);
    assert TablesOk(s') && SharedOk(s') && CodeOk(s') by {
      assert forall q :: Live(s', q) <==> Live(s, q);
    }
    assert UserOk(s') by {
      forall q, l | Live(s', q) && PAG_LOG_INIT_CODE <= l < TOTAL_PAGES ensures UserAt(s'.pt, q, l) {
        assert Live(s, q) && UserAt(s.pt, q, l);
      }
    }
    assert LowOk(s') by {
      forall q: Slot, l | 0 <= l < PAG_LOG_INIT_CODE ensures LowAt(s', q, l) {
        assert LowAt(s, q, l);
      }
    }
  }

  /** A user write to a mapped page. */
  lemma WriteKeepsInv(s: State, p: Slot, k: nat, off: nat, b: Byte)
    requires Inv(s) && Live(s, p) && UserPage(s, p, k) && off < PAGE_SIZE
    ensures WriteReady(s, p, k)
    ensures Inv(Write(s, p, k, off, b))
  {
    if IsData(k) {
      assert DataAt(s.pt, p, k);
      FaultKeepsInv(s, p, k);
    } else if IsCode(k) {
      FaultElsewhere(s, p, k);
      CodeFaultKeepsInv(s, p, k);
    } else {
      assert IsShared(k);
      assert s.pt[p][k].rw;
    }
    var s' := if s.pt[p][k].rw then s else Fault(s, p, k);
    StoreKeepsInv(s', s'.pt[p][k].frame, off, b);
  }

  /** A write changes no reference and no shared page. */
  lemma WriteRefs(s: State, p: Slot, k: nat, off: nat, b: Byte, i: int)
    requires Inv(s) && Live(s, p) && UserPage(s, p, k) && off < PAGE_SIZE && 0 <= i < NUM_REGIONS
    requires WriteReady(s, p, k)
    ensures var s' := Write(s, p, k, off, b); Unaccounted(s'.pt, s'.shm, i) == Unaccounted(s.pt, s.shm, i)
  {
    if !s.pt[p][k].rw {
      assert !IsShared(k);
      if MustSplit(s, p, k) {
        WindowKept(s, p);
        RemapRefs(s.pt, s.shm, p, k, Mapped(FreePool(s)[0]), i);
      } else {
        RemapRefs(s.pt, s.shm, p, k, s.pt[p][k].(rw := true), i);
      }
    }
  }

  // ---- shmat -----------------------------------------------------------

  /** Slot p attaches region id at its absent page k. */
  ghost predicate Attaches(s: State, s': State, p: Slot, k: int, id: nat) {
    && Live(s, p) && 0 <= k < TOTAL_PAGES && (IsShared(k) || k < PAG_LOG_INIT_CODE)
    && !s.pt[p][k].present && id < NUM_REGIONS
    && s' == s.(pt := Remap(s.pt, p, k, Mapped(s.shm[id].frame)), shm := s.shm[id := s.shm[id].(refs := s.shm[id].refs + 1)])
  }

  lemma AttachTables(s: State, s': State, p: Slot, k: int, id: nat)
    requires Attaches(s, s', p, k, id) && TablesOk(s) && SharedOk(s) && CodeOk(s)
    ensures TablesOk(s') && SharedOk(s') && CodeOk(s')
  {
    forall q ensures Live(s', q) <==> Live(s, q) {
    }
    forall q, l | DataAt(s'.pt, q, l) ensures DataAt(s.pt, q, l) {
    }
    AttachRegions(s, s', p, k, id);
    assert s.shm[id].frame == s'.shm[id].frame;
    assert IsRegion(s'.shm, s'.shm[id].frame);
    forall q: Slot, l | IsShared(l) && (q, l) != (p, k) ensures s'.pt[q][l] == s.pt[q][l] {
    }
  }

  lemma AttachLow(s: State, s': State, p: Slot, k: int, id: nat)
    requires Attaches(s, s', p, k, id) && LowOk(s)
    ensures LowOk(s')
  {
    AttachRegions(s, s', p, k, id);
    assert IsRegion(s.shm, s.shm[id].frame);
    forall q: Slot, l | 0 <= l < PAG_LOG_INIT_CODE ensures LowAt(s', q, l) {
      assert LowAt(s, q, l);
    }
  }

  lemma AttachRegions(s: State, s': State, p: Slot, k: int, id: nat)
    requires Attaches(s, s', p, k, id)
    ensures forall f :: IsRegion(s'.shm, f) <==> IsRegion(s.shm, f)
  {
    assert forall i :: 0 <= i < NUM_REGIONS ==> s'.shm[i].frame == s.shm[i].frame;
    forall f ensures IsRegion(s'.shm, f) <==> IsRegion(s.shm, f) {
      if i :| 0 <= i < NUM_REGIONS && s.shm[i].frame == f {
        assert s'.shm[i].frame == f;
      }
    }
  }

  lemma AttachRegionsOk(s: State, s': State, p: Slot, k: int, id: nat)
    requires Attaches(s, s', p, k, id) && RegionsOk(s)
    ensures RegionsOk(s')
  {
    AttachRegions(s, s', p, k, id);
    forall q, l | DataAt(s'.pt, q, l) ensures !IsRegion(s'.shm, s'.pt[q][l].frame) {
      assert DataAt(s.pt, q, l);
    }
  }

  /** An attach below the code adds a reference that no shared page accounts for. */
  lemma AttachRefs(s: State, s': State, p: Slot, k: int, id: nat, i: int)
    requires Attaches(s, s', p, k, id) && RegionsOk(s) && 0 <= i < NUM_REGIONS
    ensures Unaccounted(s'.pt, s'.shm, i) == Unaccounted(s.pt, s.shm, i) + if i == id && k < PAG_LOG_INIT_CODE then 1 else 0
  {
    var f := s.shm[i].frame;
    RemapPlaces(s.pt, p, k, Mapped(s.shm[id].frame), PAG_LOG_SHARED, TOTAL_PAGES, f);
    assert (p, k) !in SharedPlaces(s.pt, f) by {
      assert !Maps(s.pt, p, k, f);
    }
  }

  lemma AbsentIsFree(s: State, p: Slot, k: nat)
    requires TablesOk(s) && CodeOk(s) && Live(s, p) && k < TOTAL_PAGES && !s.pt[p][k].present
    ensures IsShared(k) || k < PAG_LOG_INIT_CODE
  {
    assert !IsData(k) && !IsCode(k);
  }

  lemma AttachSame(s: State, s': State, p: Slot, k: int, id: nat)
    requires Attaches(s, s', p, k, id) && WritableIsPrivate(s.pt, s.phys)
    ensures SameData(s.pt, s'.pt) && WritableIsPrivate(s'.pt, s'.phys)
  {
    SameDataWritable(s.pt, s'.pt, s.phys);
  }

  lemma AttachStep(s: State, s': State, p: Slot, k: int, id: nat)
    requires Inv(s) && Attaches(s, s', p, k, id)
    ensures Inv(s')
  {
    AttachTables(s, s', p, k, id);
    AttachLow(s, s', p, k, id);
    RemapUser(s, s', p, k, Mapped(s.shm[id].frame));
    AttachRegionsOk(s, s', p, k, id);
    AttachSame(s, s', p, k, id);
    SameDataKeeps(s, s');
  }

  /** Attaching keeps the invariant; it maps the first absent page from the requested one on,
      which is never a code or data page. */
  lemma AttachKeepsInv(s: State, p: Slot, id: int, page: nat)
    requires Inv(s) && Live(s, p) && page < TOTAL_PAGES
    ensures Inv(Attach(s, p, id, page).0)
    ensures var (s', outcome) := Attach(s, p, id, page);
      outcome.At? ==>
        && page <= outcome.page && Attaches(s, s', p, outcome.page, id)
        && (forall j :: page <= j < outcome.page ==> s.pt[p][j].present)
  {
    var (s', outcome) := Attach(s, p, id, page);
    if outcome.At? {
      AbsentIsFree(s, p, outcome.page);
      AttachStep(s, s', p, outcome.page, id);
    }
  }
}
