/** sys_fork keeps the memory invariant, and in no reachable state lacks frames. */
module ForkProof {
  import opened Common
  import opened Paging
  import opened AddressSpaces
  import opened CowInvariant
  import opened Counting

  // ---- counters --------------------------------------------------------

  lemma {:induction false} BumpAt(phys: FrameCounts, fs: seq<Frame>, f: Frame)
    requires Distinct(fs)
    ensures Bump(phys, fs)[f] == if f in fs then Incremented(phys[f]) else phys[f]
    decreases |fs|
  {
    if fs != [] {
      var r := fs[..|fs| - 1];
      assert fs == r + [fs[|fs| - 1]];
      BumpAt(phys, r, f);
    }
  }

  lemma InDataFrames(t: Table, f: Frame)
    ensures f in DataFrames(t) <==> exists k :: IsData(k) && t[k].frame == f
  {
    if k :| IsData(k) && t[k].frame == f {
      assert DataFrames(t)[k - PAG_LOG_INIT_DATA] == f;
    }
    if i :| 0 <= i < NUM_PAG_DATA && DataFrames(t)[i] == f {
      assert IsData(PAG_LOG_INIT_DATA + i);
    }
  }

  ghost predicate AllData(pt: Tables, p: Slot) {
    forall k :: IsData(k) ==> pt[p][k].present
  }

  ghost predicate NoData(pt: Tables, c: Slot) {
    forall k :: IsData(k) ==> !pt[c][k].present
  }

  lemma DataFramesDistinct(pt: Tables, p: Slot)
    requires OnePage(pt) && AllData(pt, p)
    ensures Distinct(DataFrames(pt[p]))
  {
    var fs := DataFrames(pt[p]);
    forall i, j | 0 <= i < j < |fs| ensures fs[i] != fs[j] {
      assert DataAt(pt, p, PAG_LOG_INIT_DATA + i) && DataAt(pt, p, PAG_LOG_INIT_DATA + j);
    }
  }

  /** The counters after a fork by p. */
  function ForkCounters(s: State, p: Slot): FrameCounts
    requires |FreePool(s)| >= NUM_PAG_DATA
  {
    Bump(Mark(s.phys, FreePool(s)[..NUM_PAG_DATA]), DataFrames(s.pt[p]))
  }

  lemma ForkCounts(s: State, p: Slot, f: Frame)
    requires |FreePool(s)| >= NUM_PAG_DATA && OnePage(s.pt) && AllData(s.pt, p)
    requires s.phys[f] != FREE_FRAME
    ensures ForkCounters(s, p)[f] == if f in DataFrames(s.pt[p]) then Incremented(s.phys[f]) else s.phys[f]
  {
    DataFramesDistinct(s.pt, p);
    BumpAt(Mark(s.phys, FreePool(s)[..NUM_PAG_DATA]), DataFrames(s.pt[p]), f);
    PoolMembers(s.phys, NUM_PAG_KERNEL, f);
    assert f in FreePool(s)[..NUM_PAG_DATA] ==> f in FreePool(s);
  }

  lemma ForkPool(s: State, p: Slot)
    requires |FreePool(s)| >= NUM_PAG_DATA && OnePage(s.pt) && AllData(s.pt, p) && CountsOk(s.pt, s.phys)
    ensures |Pool(ForkCounters(s, p), NUM_PAG_KERNEL)| == |FreePool(s)| - NUM_PAG_DATA
  {
    var fs := DataFrames(s.pt[p]);
    var taken := Mark(s.phys, FreePool(s)[..NUM_PAG_DATA]);
    PoolAfterMark(s.phys, NUM_PAG_KERNEL, NUM_PAG_DATA);
    DataFramesDistinct(s.pt, p);
    forall f: Frame ensures taken[f] == FREE_FRAME <==> ForkCounters(s, p)[f] == FREE_FRAME {
      BumpAt(taken, fs, f);
      InDataFrames(s.pt[p], f);
      if k :| IsData(k) && s.pt[p][k].frame == f {
        assert DataAt(s.pt, p, k);
        CountBounded(s.pt, s.phys, p, k);
      }
    }
    PoolDependsOnFree(taken, ForkCounters(s, p), NUM_PAG_KERNEL);
  }

  // ---- tables ----------------------------------------------------------

  /** The slot whose pages slot q shows after p forked into c. */
  function Origin(p: Slot, c: Slot, q: int): int { if q == c then p else q }

  /** Every slot maps on its data pages what its origin mapped there, read-only in p and c. */
  ghost predicate DataCopied(pt: Tables, pt': Tables, p: Slot, c: Slot) {
    forall q: Slot, k :: IsData(k) ==>
      && pt'[q][k].frame == pt[Origin(p, c, q)][k].frame
      && pt'[q][k].present == pt[Origin(p, c, q)][k].present
      && (pt'[q][k].rw ==> q != p && q != c && pt[q][k].rw)
  }

  ghost predicate SharedCopied(pt: Tables, pt': Tables, p: Slot, c: Slot) {
    forall q: Slot, k :: IsShared(k) ==> pt'[q][k] == pt[Origin(p, c, q)][k]
  }

  function ForkTables(pt: Tables, p: Slot, c: Slot): Tables {
    pt[c := ShareTable(pt[p], pt[c])][p := DenyWrites(pt[p])]
  }

  lemma ForkCopies(s: State, p: Slot, c: Slot)
    requires TablesOk(s) && SharedOk(s) && RegionsOk(s) && Live(s, p) && !Live(s, c)
    ensures DataCopied(s.pt, ForkTables(s.pt, p, c), p, c)
    ensures SharedCopied(s.pt, ForkTables(s.pt, p, c), p, c)
  {
    var pt' := ForkTables(s.pt, p, c);
    forall k | IsShared(k) ensures pt'[c][k] == s.pt[p][k] {
      assert s.pt[c][k] == NO_ENTRY;
      assert s.pt[p][k] == NO_ENTRY || s.pt[p][k] == Mapped(s.pt[p][k].frame);
    }
  }

  /** The child is one more user of each frame of its parent, on the same page. */
  lemma ForkPlaces(pt: Tables, pt': Tables, p: Slot, c: Slot, k: int)
    requires DataCopied(pt, pt', p, c) && OnePage(pt) && DataAt(pt, p, k) && p != c
    requires NoData(pt, c)
    ensures |DataPlaces(pt', pt[p][k].frame)| == |DataPlaces(pt, pt[p][k].frame)| + 1
  {
    var f := pt[p][k].frame;
    forall q, l | 0 <= q < NR_TASKS && IsData(l)
      ensures Maps(pt', q, l, f) <==> Maps(pt, q, l, f) || (q == c && l == k)
    {
      if q == c && pt[p][l].present && pt[p][l].frame == f {
        assert DataAt(pt, p, l);
      }
    }
    forall q, l ensures (q, l) in DataPlaces(pt', f) <==> (q, l) in DataPlaces(pt, f) + {(c, k)} {
      assert IsData(l) <==> PAG_LOG_INIT_DATA <= l < PAG_LOG_SHARED;
    }
    assert DataPlaces(pt', f) == DataPlaces(pt, f) + {(c, k)};
    assert (c, k) !in DataPlaces(pt, f);
  }

  lemma ForkOtherPlaces(pt: Tables, pt': Tables, p: Slot, c: Slot, f: Frame)
    requires DataCopied(pt, pt', p, c)
    requires NoData(pt, c)
    requires forall l :: IsData(l) ==> pt[p][l].frame != f
    ensures DataPlaces(pt', f) == DataPlaces(pt, f)
  {
    forall q, l | 0 <= q < NR_TASKS && IsData(l) ensures Maps(pt', q, l, f) <==> Maps(pt, q, l, f) {
    }
  }

  // ---- the invariant ---------------------------------------------------

  ghost predicate OneMoreLive(s: State, s': State, c: Slot) {
    forall q :: Live(s', q) <==> Live(s, q) || q == c
  }

  ghost predicate CodeCopied(pt: Tables, pt': Tables, p: Slot, c: Slot) {
    forall q: Slot, k :: IsCode(k) ==>
      && pt'[q][k].frame == pt[Origin(p, c, q)][k].frame
      && (pt[Origin(p, c, q)][k].present ==> pt'[q][k].present)
  }

  /** Below the code the child maps every page. */
  ghost predicate LowCopied(pt: Tables, pt': Tables, p: Slot, c: Slot) {
    forall q: Slot, k :: 0 <= k < PAG_LOG_INIT_CODE ==>
      && pt'[q][k].frame == pt[Origin(p, c, q)][k].frame
      && (pt'[q][k].present <==> q == c || pt[q][k].present)
  }

  lemma ForkShape(s: State, p: Slot, c: Slot)
    requires SlotsOk(s.free) && TablesOk(s)
    requires Live(s, p) && s.free != [] && c == s.free[0] && |FreePool(s)| >= NUM_PAG_DATA
    ensures !Live(s, c) && p != c && AllData(s.pt, p) && NoData(s.pt, c)
    ensures CodeCopied(s.pt, ForkOk(s, p).pt, p, c) && LowCopied(s.pt, ForkOk(s, p).pt, p, c)
    ensures OneMoreLive(s, ForkOk(s, p), c)
    ensures SlotsOk(ForkOk(s, p).free)
    ensures SameRegions(s.shm, ForkOk(s, p).shm)
  {
    assert s.free == [c] + s.free[1..];
    forall k | IsData(k) ensures !s.pt[c][k].present {
      assert !DataAt(s.pt, c, k);
    }
  }

  /** The same regions, whatever their reference counts. */
  ghost predicate SameRegions(a: Regions, b: Regions) {
    forall i :: 0 <= i < NUM_REGIONS ==> b[i].frame == a[i].frame
  }

  lemma SameRegion(a: Regions, b: Regions, f: Frame)
    requires SameRegions(a, b)
    ensures IsRegion(a, f) <==> IsRegion(b, f)
  {
    if i :| 0 <= i < NUM_REGIONS && a[i].frame == f {
      assert b[i].frame == f;
    }
  }

  lemma ForkTablesOk(s: State, s': State, p: Slot, c: Slot)
    requires TablesOk(s) && DataCopied(s.pt, s'.pt, p, c) && Live(s, p)
    requires OneMoreLive(s, s', c)
    ensures TablesOk(s')
  {
    forall q, k | DataAt(s'.pt, q, k) ensures Live(s', q) && s'.pt[q][k].frame >= FIRST_DATA_FRAME {
      assert DataAt(s.pt, Origin(p, c, q), k);
    }
    forall q, k | Live(s', q) && IsData(k) ensures s'.pt[q][k].present {
      assert s.pt[Origin(p, c, q)][k].present;
    }
  }

  /** Counters of frames that no data page of the parent maps. */
  lemma OtherCounters(pt: Tables, phys: FrameCounts, phys': FrameCounts, p: Slot, f: Frame)
    requires CountersCopied(pt, phys, phys', p) && phys[f] == 1
    requires forall k :: IsData(k) ==> pt[p][k].frame != f
    ensures phys'[f] == 1
  {
    InDataFrames(pt[p], f);
  }

  lemma ForkCodeOk(s: State, s': State, p: Slot, c: Slot)
    requires TablesOk(s) && CodeOk(s) && CodeCopied(s.pt, s'.pt, p, c) && Live(s, p)
    requires OneMoreLive(s, s', c) && AllData(s.pt, p) && CountersCopied(s.pt, s.phys, s'.phys, p)
    ensures CodeOk(s')
  {
    forall q, k | Live(s', q) && IsCode(k) ensures s'.pt[q][k].present && s'.pt[q][k].frame == CodeFrame(k) {
      assert Live(s, Origin(p, c, q));
    }
    forall k | IsCode(k) ensures s'.phys[CodeFrame(k)] == 1 {
      forall l | IsData(l) ensures s.pt[p][l].frame != CodeFrame(k) {
        assert DataAt(s.pt, p, l);
      }
      OtherCounters(s.pt, s.phys, s'.phys, p, CodeFrame(k));
    }
  }

  /** No page of p or c changes its user bit, and what c gets is open to the user. */
  ghost predicate UserCopied(pt: Tables, pt': Tables, p: Slot, c: Slot) {
    forall q: Slot, k :: PAG_LOG_INIT_CODE <= k < TOTAL_PAGES && UserAt(pt, Origin(p, c, q), k) ==> UserAt(pt', q, k)
  }

  lemma ForkUser(s: State, p: Slot, c: Slot)
    requires SharedOk(s) && Live(s, p) && !Live(s, c)
    ensures UserCopied(s.pt, ForkTables(s.pt, p, c), p, c)
  {
    var pt' := ForkTables(s.pt, p, c);
    forall q: Slot, k | PAG_LOG_INIT_CODE <= k < TOTAL_PAGES && UserAt(s.pt, Origin(p, c, q), k) ensures UserAt(pt', q, k) {
      if IsShared(k) {
        assert s.pt[c][k] == NO_ENTRY;
      }
    }
  }

  lemma ForkUserOk(s: State, s': State, p: Slot, c: Slot)
    requires UserOk(s) && UserCopied(s.pt, s'.pt, p, c) && OneMoreLive(s, s', c) && Live(s, p)
    ensures UserOk(s')
  {
    forall q, k | Live(s', q) && PAG_LOG_INIT_CODE <= k < TOTAL_PAGES ensures UserAt(s'.pt, q, k) {
      assert Live(s, Origin(p, c, q)) && UserAt(s.pt, Origin(p, c, q), k);
    }
  }

  lemma ForkLowOk(s: State, s': State, p: Slot, c: Slot)
    requires TablesOk(s) && LowOk(s) && LowCopied(s.pt, s'.pt, p, c) && SameRegions(s.shm, s'.shm)
    requires AllData(s.pt, p) && CountersCopied(s.pt, s.phys, s'.phys, p)
    ensures LowOk(s')
  {
    forall q: Slot, k | 0 <= k < PAG_LOG_INIT_CODE ensures LowAt(s', q, k) {
      assert LowAt(s, Origin(p, c, q), k);
      SameRegion(s.shm, s'.shm, s'.pt[q][k].frame);
    }
    forall f | 0 <= f < NUM_PAG_KERNEL ensures s'.phys[f] == 1 {
      forall l | IsData(l) ensures s.pt[p][l].frame != f {
        assert DataAt(s.pt, p, l);
      }
      OtherCounters(s.pt, s.phys, s'.phys, p, f);
    }
  }

  lemma ForkOnePage(pt: Tables, pt': Tables, p: Slot, c: Slot)
    requires OnePage(pt) && DataCopied(pt, pt', p, c)
    ensures OnePage(pt')
  {
    forall q, k | DataAt(pt', q, k) ensures DataAt(pt, Origin(p, c, q), k) {
    }
  }

  lemma ForkSharedOk(s: State, s': State, p: Slot, c: Slot)
    requires SharedOk(s) && SharedCopied(s.pt, s'.pt, p, c) && SameRegions(s.shm, s'.shm)
    requires OneMoreLive(s, s', c)
    ensures SharedOk(s')
  {
    forall q: Slot, k | IsShared(k) && s'.pt[q][k] != NO_ENTRY
      ensures Live(s', q) && s'.pt[q][k] == Mapped(s'.pt[q][k].frame) && IsRegion(s'.shm, s'.pt[q][k].frame)
    {
      assert s'.pt[q][k] == s.pt[Origin(p, c, q)][k];
      SameRegion(s.shm, s'.shm, s'.pt[q][k].frame);
    }
  }

  /** The counters of a fork, at the frame of a data page of any slot. */
  ghost predicate CountersCopied(pt: Tables, phys: FrameCounts, phys': FrameCounts, p: Slot) {
    forall f: Frame :: phys[f] != FREE_FRAME ==>
      phys'[f] == if f in DataFrames(pt[p]) then Incremented(phys[f]) else phys[f]
  }

  lemma ForkCountsAt(pt: Tables, pt': Tables, phys: FrameCounts, phys': FrameCounts, p: Slot, c: Slot, q: Slot, k: int)
    requires OnePage(pt) && CountsOk(pt, phys) && WritableIsPrivate(pt, phys)
    requires DataCopied(pt, pt', p, c) && AllData(pt, p) && p != c
    requires NoData(pt, c)
    requires CountersCopied(pt, phys, phys', p)
    requires DataAt(pt', q, k)
    ensures phys'[pt'[q][k].frame] == |DataPlaces(pt', pt'[q][k].frame)|
    ensures pt'[q][k].rw ==> phys'[pt'[q][k].frame] == 1
  {
    var f := pt'[q][k].frame;
    assert DataAt(pt, Origin(p, c, q), k);
    CountBounded(pt, phys, Origin(p, c, q), k);
    InDataFrames(pt[p], f);
    if l :| IsData(l) && pt[p][l].frame == f {
      assert DataAt(pt, p, l);
      ForkPlaces(pt, pt', p, c, l);
      if pt'[q][k].rw {
        SharedNotWritable(pt, phys, q, p, k);
      }
    } else {
      ForkOtherPlaces(pt, pt', p, c, f);
    }
  }

  lemma ForkCountsOk(pt: Tables, pt': Tables, phys: FrameCounts, phys': FrameCounts, p: Slot, c: Slot)
    requires OnePage(pt) && CountsOk(pt, phys) && WritableIsPrivate(pt, phys)
    requires DataCopied(pt, pt', p, c) && AllData(pt, p) && p != c
    requires NoData(pt, c)
    requires CountersCopied(pt, phys, phys', p)
    ensures CountsOk(pt', phys') && WritableIsPrivate(pt', phys')
  {
    forall q, k | DataAt(pt', q, k)
      ensures phys'[pt'[q][k].frame] == |DataPlaces(pt', pt'[q][k].frame)|
      ensures pt'[q][k].rw ==> phys'[pt'[q][k].frame] == 1
    {
      ForkCountsAt(pt, pt', phys, phys', p, c, q, k);
    }
  }

  lemma ForkRegionsOk(s: State, s': State, p: Slot, c: Slot)
    requires RegionsOk(s) && DataCopied(s.pt, s'.pt, p, c) && AllData(s.pt, p)
    requires SameRegions(s.shm, s'.shm)
    requires CountersCopied(s.pt, s.phys, s'.phys, p)
    ensures RegionsOk(s')
  {
    forall i | 0 <= i < NUM_REGIONS ensures s'.phys[s'.shm[i].frame] == 1 {
      var f := s.shm[i].frame;
      InDataFrames(s.pt[p], f);
      forall l | IsData(l) ensures s.pt[p][l].frame != f {
        assert DataAt(s.pt, p, l);
        assert IsRegion(s.shm, f);
      }
    }
    forall q, k | DataAt(s'.pt, q, k) ensures !IsRegion(s'.shm, s'.pt[q][k].frame) {
      assert DataAt(s.pt, Origin(p, c, q), k);
      SameRegion(s.shm, s'.shm, s'.pt[q][k].frame);
    }
  }

  lemma InheritedPlaces(s: State, pt': Tables, p: Slot, c: Slot, f: Frame)
    requires SharedOk(s) && SharedCopied(s.pt, pt', p, c) && !Live(s, c) && p != c && f != 0
    ensures |SharedPlaces(pt', f)| == |SharedPlaces(s.pt, f)| + |Attached(s.pt[p], f, TOTAL_PAGES)|
  {
    var pages := Attached(s.pt[p], f, TOTAL_PAGES);
    var inherited := set k | k in pages :: (c, k);
    forall k | IsShared(k) ensures !s.pt[c][k].present && (s.pt[p][k].frame == f ==> s.pt[p][k].present) {
      assert s.pt[c][k] == NO_ENTRY;
      assert s.pt[p][k] == NO_ENTRY || s.pt[p][k].present;
    }
    RowSize(inherited, c, pages);
    forall q, l | 0 <= q < NR_TASKS && IsShared(l)
      ensures Maps(pt', q, l, f) <==> Maps(s.pt, q, l, f) || (q, l) in inherited
    {
      assert pt'[q][l] == s.pt[Origin(p, c, q)][l];
    }
    forall q, l ensures (q, l) in SharedPlaces(pt', f) <==> (q, l) in SharedPlaces(s.pt, f) + inherited {
      assert IsShared(l) <==> PAG_LOG_SHARED <= l < TOTAL_PAGES;
    }
    assert SharedPlaces(pt', f) == SharedPlaces(s.pt, f) + inherited;
    assert SharedPlaces(s.pt, f) !! inherited;
  }

  lemma ForkMapped(pt: Tables, pt': Tables, p: Slot, c: Slot)
    requires DataCopied(pt, pt', p, c)
    requires NoData(pt, c)
    ensures MappedBelow(pt', NR_TASKS) == MappedBelow(pt, NR_TASKS)
  {
    forall f | f in MappedBelow(pt', NR_TASKS) ensures f in MappedBelow(pt, NR_TASKS) {
      var q, k :| 0 <= q < NR_TASKS && PAG_LOG_INIT_DATA <= k < PAG_LOG_SHARED && DataAt(pt', q, k) && pt'[q][k].frame == f;
      assert DataAt(pt, Origin(p, c, q), k);
    }
    forall f | f in MappedBelow(pt, NR_TASKS) ensures f in MappedBelow(pt', NR_TASKS) {
      var q, k :| 0 <= q < NR_TASKS && PAG_LOG_INIT_DATA <= k < PAG_LOG_SHARED && DataAt(pt, q, k) && pt[q][k].frame == f;
      assert DataAt(pt', q, k) && pt'[q][k].frame == f;
    }
  }

  /** The references a fork adds are the shared pages that the child inherits. */
  lemma ForkRefs(s: State, p: Slot, i: int)
    requires Inv(s) && Live(s, p) && 0 <= i < NUM_REGIONS
    ensures var s' := Fork(s, p).0; Unaccounted(s'.pt, s'.shm, i) == Unaccounted(s.pt, s.shm, i)
  {
    PoolSuffices(s);
    if s.free != [] {
      var c, s' := s.free[0], ForkOk(s, p);
      ForkShape(s, p, c);
      ForkCopies(s, p, c);
      InheritedPlaces(s, s'.pt, p, c, s.shm[i].frame);
    }
  }

  lemma ForkCountersCopied(s: State, p: Slot)
    requires |FreePool(s)| >= NUM_PAG_DATA && OnePage(s.pt) && AllData(s.pt, p)
    ensures CountersCopied(s.pt, s.phys, ForkCounters(s, p), p)
  {
    forall f: Frame | s.phys[f] != FREE_FRAME
      ensures ForkCounters(s, p)[f] == if f in DataFrames(s.pt[p]) then Incremented(s.phys[f]) else s.phys[f]
    {
      ForkCounts(s, p, f);
    }
  }

  lemma ForkBudgetOk(s: State, p: Slot, c: Slot)
    requires |FreePool(s)| >= NUM_PAG_DATA && s.free != [] && c == s.free[0]
    requires OnePage(s.pt) && CountsOk(s.pt, s.phys) && BudgetOk(s)
    requires AllData(s.pt, p) && NoData(s.pt, c) && DataCopied(s.pt, ForkOk(s, p).pt, p, c)
    requires CountersCopied(s.pt, s.phys, ForkOk(s, p).phys, p)
    ensures BudgetOk(ForkOk(s, p))
  {
    ForkPool(s, p);
    ForkMapped(s.pt, ForkOk(s, p).pt, p, c);
  }

  /** A fork in a reachable state keeps the invariant, and it fails only when no slot is free. */
  lemma ForkKeepsInv(s: State, p: Slot)
    requires Inv(s) && Live(s, p)
    ensures Inv(Fork(s, p).0)
    ensures Fork(s, p).1 == if s.free == [] then NoSlot else Child(s.free[0])
  {
    PoolSuffices(s);
    if s.free != [] {
      var c, s' := s.free[0], ForkOk(s, p);
      ForkShape(s, p, c);
      ForkCopies(s, p, c);
      ForkCountersCopied(s, p);
      ForkTablesOk(s, s', p, c);
      ForkCodeOk(s, s', p, c);
      ForkLowOk(s, s', p, c);
      ForkUser(s, p, c);
      ForkUserOk(s, s', p, c);
      ForkOnePage(s.pt, s'.pt, p, c);
      ForkSharedOk(s, s', p, c);
      ForkCountsOk(s.pt, s'.pt, s.phys, s'.phys, p, c);
      ForkRegionsOk(s, s', p, c);
      ForkBudgetOk(s, p, c);
    }
  }
}
