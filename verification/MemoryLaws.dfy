/** What the memory shows: how each event changes what the processes read, told in reads only. The
    states here are all that satisfy the invariant, so all reachable ones. */
module MemoryLaws {
  import opened Common
  import opened Paging
  import opened AddressSpaces
  import opened CowInvariant
  import opened EagerRefinement
  import opened FaultProof
  import opened ForkProof
  import BootImage

  // ---- every state is related to an eager one --------------------------

  ghost function RegionOf(shm: Regions, f: Frame): (i: RegionId)
    requires IsRegion(shm, f)
    ensures shm[i].frame == f
  {
    var i :| 0 <= i < NUM_REGIONS && shm[i].frame == f;
    i
  }

  ghost function AttachedBy(s: State, p: Slot): (r: Attachments)
    requires SharedOk(s)
    ensures forall k :: k in r <==> IsShared(k) && s.pt[p][k].present
    ensures forall k :: k in r ==> s.shm[r[k]].frame == s.pt[p][k].frame
  {
    map k | PAG_LOG_SHARED <= k < TOTAL_PAGES && s.pt[p][k].present :: RegionAt(s, p, k)
  }

  ghost function RegionAt(s: State, p: Slot, k: int): (i: RegionId)
    requires SharedOk(s) && IsShared(k) && s.pt[p][k].present
    ensures s.shm[i].frame == s.pt[p][k].frame
  {
    assert s.pt[p][k] != NO_ENTRY;
    RegionOf(s.shm, s.pt[p][k].frame)
  }

  ghost function Seen(s: State): Eager
    requires SharedOk(s)
  {
    Eager(seq<Privates>(NR_TASKS, p requires 0 <= p < NR_TASKS => PrivateOf(s.ram, s.pt[p])),
          seq<Attachments>(NR_TASKS, p requires 0 <= p < NR_TASKS => AttachedBy(s, p)),
          seq<set<int>>(NR_TASKS, p requires 0 <= p < NR_TASKS => Holes(s.pt[p])),
          seq<Page>(NUM_PAG_CODE, j requires 0 <= j < NUM_PAG_CODE => s.ram[NUM_PAG_KERNEL + 2 * j]),
          seq<Page>(NUM_REGIONS, i requires 0 <= i < NUM_REGIONS => s.ram[s.shm[i].frame]),
          s.free)
  }

  function PrivateOf(ram: Ram, t: Table): Privates {
    seq<Page>(NUM_PAG_DATA, d requires 0 <= d < NUM_PAG_DATA => DataPage(ram, t, d))
  }

  function DataPage(ram: Ram, t: Table, d: int): Page
    requires 0 <= d < NUM_PAG_DATA
  {
    ram[t[PAG_LOG_INIT_DATA + d].frame]
  }

  function Holes(t: Table): set<int> {
    set k | 0 <= k < PAG_LOG_INIT_CODE && !t[k].present
  }

  lemma SeenMaps(s: State)
    requires SharedOk(s)
    ensures MapRel(s, Seen(s))
  {
    var e := Seen(s);
    forall p, k | Live(s, p) && IsShared(k) ensures AttRel(s.pt, s.shm, e.att, p, k) {
      assert e.att[p] == AttachedBy(s, p);
    }
  }

  lemma SeenPrivate(s: State)
    requires SharedOk(s)
    ensures PrivRel(s.pt, s.ram, Seen(s).priv)
  {
    forall p, k | DataAt(s.pt, p, k) ensures Seen(s).priv[p][k - PAG_LOG_INIT_DATA] == s.ram[s.pt[p][k].frame] {
      assert Seen(s).priv[p] == PrivateOf(s.ram, s.pt[p]);
    }
  }

  lemma SeenRel(s: State)
    requires SharedOk(s)
    ensures Rel(s, Seen(s))
  {
    SeenMaps(s);
    SeenPrivate(s);
  }

  /** An event changes what is read as it does in the eager system. */
  lemma StepReads(s: State, ev: Event, q: Slot, page: nat, off: nat)
    requires Inv(s)
    ensures EagerShape(Seen(s)) && Read(s, q, page, off) == EagerRead(Seen(s), q, page, off)
    ensures var (s', a) := Step(s, ev);
      var (e', b) := EagerStep(Seen(s), ev);
      Read(s', q, page, off) == EagerRead(e', q, page, off) && a == b
  {
    SeenRel(s);
    StepRel(s, Seen(s), ev);
    ReadRel(s, Seen(s), q, page, off);
    ReadRel(Step(s, ev).0, EagerStep(Seen(s), ev).0, q, page, off);
  }

  // ---- fork ------------------------------------------------------------

  /** The child reads on every page what its parent reads there; nobody else sees the fork. */
  lemma ForkShows(s: State, p: Slot, q: Slot, page: nat, off: nat)
    requires Inv(s) && Live(s, p) && s.free != []
    ensures var (s', a) := Step(s, DoFork(p));
      && a == Forked(Child(s.free[0])) && !Live(s, s.free[0]) && Live(s', s.free[0])
      && Read(s', q, page, off) == Read(s, if q == s.free[0] then p else q, page, off)
  {
    StepReads(s, DoFork(p), q, page, off);
    StepReads(s, DoFork(p), if q == s.free[0] then p else q, page, off);
    EagerForkShows(Seen(s), p, q, page, off);
    ForkLives(s, p);
  }

  lemma ForkLives(s: State, p: Slot)
    requires Inv(s) && Live(s, p) && s.free != []
    ensures var (s', a) := Step(s, DoFork(p));
      a == Forked(Child(s.free[0])) && !Live(s, s.free[0]) && Live(s', s.free[0])
  {
    ForkKeepsInv(s, p);
    PoolSuffices(s);
    ForkShape(s, p, s.free[0]);
  }

  lemma EagerForkShows(e: Eager, p: Slot, q: Slot, page: nat, off: nat)
    requires EagerShape(e) && EagerLive(e, p) && e.free != [] && e.free[0] >= 1 && Distinct(e.free)
    ensures EagerRead(EagerStep(e, DoFork(p)).0, q, page, off) == EagerRead(e, if q == e.free[0] then p else q, page, off)
  {
    assert e.free == [e.free[0]] + e.free[1..];
    assert forall r: Slot :: r in e.free[1..] <==> r in e.free && r != e.free[0];
  }

  /** Without a free slot nothing changes. */
  lemma FullForkShows(s: State, p: Slot)
    requires Inv(s) && Live(s, p) && s.free == []
    ensures Step(s, DoFork(p)) == (s, Forked(NoSlot))
  {
    ForkKeepsInv(s, p);
  }

  /** The tables after a fork, entry by entry: frame, user, writable, present. The child gets the frames of its
      parent, the data of both is read-only, and every other table stays. */
  lemma ForkMaps(s: State, p: Slot, q: Slot, k: nat)
    requires Inv(s) && Live(s, p) && s.free != [] && k < TOTAL_PAGES
    ensures ForkedEntries(s.pt, Step(s, DoFork(p)).0.pt, p, s.free[0], q, k)
  {
    ForkKeepsInv(s, p);
    PoolSuffices(s);
    ForkShape(s, p, s.free[0]);
    EntriesForked(s.pt, p, s.free[0], q, k);
  }

  predicate ForkedEntries(pt: Tables, pt': Tables, p: Slot, c: Slot, q: Slot, k: nat)
    requires k < TOTAL_PAGES
  {
    && (k < 264 ==> pt'[c][k] == Entry(pt[p][k].frame, true, true, true))
    && (264 <= k < 284 ==> pt'[c][k] == Entry(pt[p][k].frame, true, false, true) && pt'[p][k] == pt[p][k].(rw := false))
    && (k >= 284 ==> pt'[c][k] == if pt[p][k].frame != 0 then Entry(pt[p][k].frame, true, true, true) else pt[c][k])
    && (k < 264 || k >= 284 ==> pt'[p][k] == pt[p][k])
    && (q != p && q != c ==> pt'[q][k] == pt[q][k])
  }

  lemma EntriesForked(pt: Tables, p: Slot, c: Slot, q: Slot, k: nat)
    requires k < TOTAL_PAGES && p != c
    ensures ForkedEntries(pt, ForkTables(pt, p, c), p, c, q, k)
  {
  }

  // ---- write -----------------------------------------------------------

  /** Page l of q is the page that p sees at k: the same code page, or the same region. */
  predicate SamePage(s: State, p: Slot, k: int, q: Slot, l: int) {
    (IsCode(k) && l == k) || (IsShared(k) && IsShared(l) && s.pt[q][l].frame == s.pt[p][k].frame)
  }

  /** What q reads at offset o of page l when p wrote b outside its data. */
  ghost function WithByte(s: State, p: Slot, k: nat, off: nat, b: Byte, q: Slot, l: nat, o: nat): Observation
    requires k < TOTAL_PAGES
  {
    if o == off && Read(s, q, l, o) != Observation.Unmapped && SamePage(s, p, k, q, l) then Value(b) else Read(s, q, l, o)
  }

  /** A write is read back. On a data page nobody else sees it, in whatever way the page came to be shared;
      on a code page all tasks see it, in a region all pages that show the region. */
  lemma WriteShows(s: State, p: Slot, k: nat, off: nat, b: Byte, q: Slot, l: nat, o: nat)
    requires Inv(s) && Live(s, p) && UserPage(s, p, k) && off < PAGE_SIZE
    ensures var (s', a) := Step(s, DoWrite(p, k, off, b));
      && a == Written && Read(s', p, k, off) == Value(b)
      && (IsData(k) && (q, l, o) != (p, k, off) ==> Read(s', q, l, o) == Read(s, q, l, o))
      && (!IsData(k) ==> Read(s', q, l, o) == WithByte(s, p, k, off, b, q, l, o))
  {
    var e, ev := Seen(s), DoWrite(p, k, off, b);
    SeenRel(s);
    LiveRel(s, e, p, k);
    StepReads(s, ev, q, l, o);
    StepReads(s, ev, p, k, off);
    EagerWriteShows(e, p, k, off, b, q, l, o);
    if IsShared(k) && IsShared(l) && Live(s, q) && UserPage(s, q, l) {
      LiveRel(s, e, q, l);
      SameRegionAt(s, p, k, q, l);
    }
  }

  lemma SameRegionAt(s: State, p: Slot, k: int, q: Slot, l: int)
    requires SharedOk(s) && RegionsOk(s) && IsShared(k) && IsShared(l) && s.pt[p][k].present && s.pt[q][l].present
    ensures AttachedBy(s, p)[k] == AttachedBy(s, q)[l] <==> s.pt[p][k].frame == s.pt[q][l].frame
  {
  }

  function EagerWithByte(e: Eager, p: Slot, k: nat, off: nat, b: Byte, q: Slot, l: nat, o: nat): Observation
    requires EagerShape(e) && EagerPage(e, p, k)
  {
    var r := EagerRead(e, q, l, o);
    if r == Observation.Unmapped || o != off then r
    else if (IsCode(k) && l == k) || (IsShared(k) && IsShared(l) && e.att[p][k] == e.att[q][l]) then Value(b)
    else r
  }

  lemma EagerWriteShows(e: Eager, p: Slot, k: nat, off: nat, b: Byte, q: Slot, l: nat, o: nat)
    requires EagerShape(e) && EagerLive(e, p) && EagerPage(e, p, k) && off < PAGE_SIZE
    ensures var (e', a) := EagerStep(e, DoWrite(p, k, off, b));
      && a == Written && EagerRead(e', p, k, off) == Value(b)
      && (IsData(k) && (q, l, o) != (p, k, off) ==> EagerRead(e', q, l, o) == EagerRead(e, q, l, o))
      && (!IsData(k) ==> EagerRead(e', q, l, o) == EagerWithByte(e, p, k, off, b, q, l, o))
  {
  }

  /** A write to a page that is not mapped is none. */
  lemma LostWrite(s: State, p: Slot, k: nat, off: nat, b: Byte)
    requires Inv(s) && !(Live(s, p) && UserPage(s, p, k) && off < PAGE_SIZE)
    ensures Step(s, DoWrite(p, k, off, b)) == (s, Ignored)
  {
  }

  // ---- attach ----------------------------------------------------------

  /** An attached page shows the bytes of its region; an attach below the code shows nothing new, and no other
      read changes. */
  lemma AttachShows(s: State, p: Slot, id: int, page: nat, q: Slot, l: nat, o: nat)
    requires Inv(s) && Live(s, p) && page < TOTAL_PAGES && 0 <= id < NUM_REGIONS
    ensures var (s', a) := Step(s, DoAttach(p, id, page));
      var k := FirstAbsent(s.pt[p], page);
      && a == AttachedAt(if k == TOTAL_PAGES then NoPage else At(k))
      && Read(s', q, l, o) ==
           if q == p && l == k && PAG_LOG_INIT_CODE <= k < TOTAL_PAGES && o < PAGE_SIZE then Value(s.ram[s.shm[id].frame][o])
           else Read(s, q, l, o)
  {
    AttachKeepsInv(s, p, id, page);
    var k := FirstAbsent(s.pt[p], page);
    if k < TOTAL_PAGES {
      AttachedReads(s, Attach(s, p, id, page).0, p, k, id, q, l, o);
    }
  }

  lemma AttachedReads(s: State, s': State, p: Slot, k: nat, id: nat, q: Slot, l: nat, o: nat)
    requires Attaches(s, s', p, k, id)
    ensures Read(s', q, l, o) ==
      if q == p && l == k && PAG_LOG_INIT_CODE <= k < TOTAL_PAGES && o < PAGE_SIZE then Value(s.ram[s.shm[id].frame][o])
      else Read(s, q, l, o)
  {
    assert Live(s', q) <==> Live(s, q);
  }

  /** A bad region identifier changes nothing. */
  lemma BadAttach(s: State, p: Slot, id: int, page: nat)
    requires Inv(s) && Live(s, p) && page < TOTAL_PAGES && !(0 <= id < 10)
    ensures Step(s, DoAttach(p, id, page)) == (s, AttachedAt(BadRegion))
  {
  }

  // ---- boot ------------------------------------------------------------

  /** The tables after boot, entry by entry: frame, user, writable, present. Every task maps the kernel but page 0
      and the guards; task 1 has its code read-only and its data writable. */
  lemma BootMaps(g: BootImage.Guards, p: Slot, k: nat)
    requires k < TOTAL_PAGES
    ensures var e := BootImage.BootTables(g)[p][k];
      && (1 <= k < 256 ==> e == Entry(k, false, true, k != g.low && k != g.high))
      && (p == 1 && 256 <= k < 264 ==> e == Entry(256 + 2 * (k - 256), true, false, true))
      && (p == 1 && 264 <= k < 284 ==> e == Entry(272 + 2 * (k - 264), true, true, true))
      && (k == 0 || k >= 284 || (p != 1 && k >= 256) ==> e == NO_ENTRY)
  {
    assert p != 1 ==> BootImage.BootTables(g)[p] == BootImage.KernelTable(g);
  }

  /** The regions and the frames in use after boot. */
  lemma BootFrames(f: Frame, i: nat)
    requires i < NUM_REGIONS
    ensures BootImage.BootRegions()[i] == Region(312 + 2 * i, 0)
    ensures BootImage.BootCounts()[f] == if f < 256 || (f < 332 && f % 2 == 0) then 1 else 0
  {
  }

  /** After boot task 1 reads what the loader left: its code in frames 256, 258 and on, its data in 272,
      274 and on; nothing else is mapped for anybody. */
  lemma BootShows(g: BootImage.Guards, ram: Ram, q: Slot, page: nat, off: nat)
    ensures Read(BootImage.BootState(g, ram), q, page, off) ==
      if q == 1 && 256 <= page < 264 && off < 4096 then Value(ram[256 + 2 * (page - 256)][off])
      else if q == 1 && 264 <= page < 284 && off < 4096 then Value(ram[272 + 2 * (page - 264)][off])
      else Observation.Unmapped
  {
    var s := BootImage.BootState(g, ram);
    assert Live(s, q) <==> q == 1 by {
      assert q >= 2 ==> s.free[q - 2] == q;
    }
  }
}
