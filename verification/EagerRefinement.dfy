/** Copy-on-write refines eager copy: over every run from boot the processes read exactly
    what they would read had each fork copied its twenty data pages at once. */
module EagerRefinement {
  import opened Common
  import opened Paging
  import opened AddressSpaces
  import opened CowInvariant
  import opened ForkProof
  import opened FaultProof

  // ---- runs of the kernel ----------------------------------------------

  datatype Event =
    | DoFork(p: Slot)
    | DoWrite(p: Slot, page: nat, off: nat, b: Byte)
    | DoAttach(p: Slot, id: int, page: nat)

  datatype Answer = Ignored | Forked(child: ForkOutcome) | Written | AttachedAt(where: AttachOutcome)

  /** Only live processes act; a write goes to a mapped page of the code, data or shared range. */
  predicate Enabled(s: State, e: Event) {
    && Live(s, e.p)
    && (e.DoWrite? ==> UserPage(s, e.p, e.page) && e.off < PAGE_SIZE)
    && (e.DoAttach? ==> e.page < TOTAL_PAGES)
  }

  ghost function Step(s: State, e: Event): (r: (State, Answer))
    requires Inv(s)
    ensures Inv(r.0)
  {
    if !Enabled(s, e) then (s, Ignored)
    else match e
      case DoFork(p) =>
        ForkKeepsInv(s, p);
        (Fork(s, p).0, Forked(Fork(s, p).1))
      case DoWrite(p, page, off, b) =>
        WriteKeepsInv(s, p, page, off, b);
        (Write(s, p, page, off, b), Written)
      case DoAttach(p, id, page) =>
        AttachKeepsInv(s, p, id, page);
        (Attach(s, p, id, page).0, AttachedAt(Attach(s, p, id, page).1))
  }

  ghost function Run(s: State, evs: seq<Event>): (r: (State, seq<Answer>))
    requires Inv(s)
    ensures Inv(r.0) && |r.1| == |evs|
    decreases |evs|
  {
    if evs == [] then (s, [])
    else
      var before := Run(s, evs[..|evs| - 1]);
      var after := Step(before.0, evs[|evs| - 1]);
      (after.0, before.1 + [after.1])
  }

  /** The event attached region i below the code. */
  predicate AttachedLow(ev: Event, a: Answer, i: int) {
    ev.DoAttach? && ev.id == i && a.AttachedAt? && a.where.At? && a.where.page < PAG_LOG_INIT_CODE
  }

  /** How many events attached region i below the code. */
  function LowAttaches(evs: seq<Event>, answers: seq<Answer>, i: int): nat
    requires |answers| == |evs|
    decreases |evs|
  {
    var n := |evs| - 1;
    if evs == [] then 0
    else LowAttaches(evs[..n], answers[..n], i) + if AttachedLow(evs[n], answers[n], i) then 1 else 0
  }

  datatype Observation = Unmapped | Value(b: Byte)

  /** What process p reads at an offset of one of its code, data or shared pages. */
  ghost function Read(s: State, p: Slot, page: nat, off: nat): Observation {
    if Live(s, p) && UserPage(s, p, page) && off < PAGE_SIZE then Value(s.ram[s.pt[p][page].frame][off])
    else Unmapped
  }

  // ---- eager copy ------------------------------------------------------

  type Privates = d: seq<Page> | |d| == NUM_PAG_DATA witness seq<Page>(NUM_PAG_DATA, _ => ZERO_PAGE)
  type RegionId = i: int | 0 <= i < NUM_REGIONS
  type Attachments = map<int, RegionId>

  /** Each slot owns twenty pages and knows which region it attached at which shared page, and
      which pages below the code it has not mapped. The code is common to all. */
  datatype Eager = Eager(priv: seq<Privates>, att: seq<Attachments>, low: seq<set<int>>, code: seq<Page>,
                         shared: seq<Page>, free: seq<Slot>)

  predicate EagerShape(e: Eager) {
    && |e.priv| == NR_TASKS && |e.att| == NR_TASKS && |e.low| == NR_TASKS
    && |e.code| == NUM_PAG_CODE && |e.shared| == NUM_REGIONS
  }

  predicate EagerLive(e: Eager, p: int) {
    1 <= p < NR_TASKS && p !in e.free
  }

  predicate EagerPage(e: Eager, p: Slot, page: nat)
    requires |e.att| == NR_TASKS
  {
    IsCode(page) || IsData(page) || (IsShared(page) && page in e.att[p])
  }

  predicate EagerEnabled(e: Eager, ev: Event)
    requires |e.att| == NR_TASKS
  {
    && EagerLive(e, ev.p)
    && (ev.DoWrite? ==> EagerPage(e, ev.p, ev.page) && ev.off < PAGE_SIZE)
    && (ev.DoAttach? ==> ev.page < TOTAL_PAGES)
  }

  function WithRegion(att: Attachments, k: int, id: RegionId): Attachments { att[k := id] }

  /** The first page from k on that is unmapped below the code or has nothing attached, or TOTAL_PAGES. */
  function FirstUnused(att: Attachments, low: set<int>, k: nat): (r: nat)
    requires k <= TOTAL_PAGES
    ensures k <= r <= TOTAL_PAGES
    ensures r < TOTAL_PAGES ==> r < PAG_LOG_INIT_CODE || IsShared(r)
    decreases TOTAL_PAGES - k
  {
    if k == TOTAL_PAGES || (k < PAG_LOG_INIT_CODE && k in low) || (IsShared(k) && k !in att) then k
    else FirstUnused(att, low, k + 1)
  }

  /** The eager state once p forked into c. */
  function Duplicated(e: Eager, p: Slot, c: Slot): Eager
    requires |e.priv| == |e.att| == |e.low| == NR_TASKS && e.free != []
  {
    e.(priv := e.priv[c := e.priv[p]], att := e.att[c := e.att[p]], low := e.low[c := {}], free := e.free[1..])
  }

  /** Page m with one byte changed. */
  function Poked(m: Page, off: nat, b: Byte): Page
    requires off < PAGE_SIZE
  {
    m[off := b]
  }

  function EagerFork(e: Eager, p: Slot): (Eager, ForkOutcome)
    requires EagerShape(e)
  {
    if e.free == [] then (e, NoSlot) else (Duplicated(e, p, e.free[0]), Child(e.free[0]))
  }

  function EagerWrite(e: Eager, p: Slot, page: nat, off: nat, b: Byte): Eager
    requires EagerShape(e) && EagerPage(e, p, page) && off < PAGE_SIZE
  {
    if IsCode(page) then
      var j := page - PAG_LOG_INIT_CODE;
      e.(code := e.code[j := Poked(e.code[j], off, b)])
    else if IsData(page) then
      var d := page - PAG_LOG_INIT_DATA;
      e.(priv := e.priv[p := e.priv[p][d := Poked(e.priv[p][d], off, b)]])
    else
      var i := e.att[p][page];
      e.(shared := e.shared[i := Poked(e.shared[i], off, b)])
  }

  /** Page k shows region id; a page below the code is merely taken. */
  function Shown(e: Eager, p: Slot, k: int, id: RegionId): Eager
    requires EagerShape(e)
  {
    if k < PAG_LOG_INIT_CODE then e.(low := e.low[p := e.low[p] - {k}])
    else e.(att := e.att[p := WithRegion(e.att[p], k, id)])
  }

  function EagerAttach(e: Eager, p: Slot, id: int, page: nat): (Eager, AttachOutcome)
    requires EagerShape(e) && page < TOTAL_PAGES
  {
    if !(0 <= id < NUM_REGIONS) then (e, BadRegion)
    else
      var k := FirstUnused(e.att[p], e.low[p], page);
      if k == TOTAL_PAGES then (e, NoPage) else (Shown(e, p, k, id), At(k))
  }

  function EagerStep(e: Eager, ev: Event): (r: (Eager, Answer))
    requires EagerShape(e)
    ensures EagerShape(r.0)
  {
    if !EagerEnabled(e, ev) then (e, Ignored)
    else match ev
      case DoFork(p) => (EagerFork(e, p).0, Forked(EagerFork(e, p).1))
      case DoWrite(p, page, off, b) => (EagerWrite(e, p, page, off, b), Written)
      case DoAttach(p, id, page) => (EagerAttach(e, p, id, page).0, AttachedAt(EagerAttach(e, p, id, page).1))
  }

  function EagerRun(e: Eager, evs: seq<Event>): (r: (Eager, seq<Answer>))
    requires EagerShape(e)
    ensures EagerShape(r.0) && |r.1| == |evs|
    decreases |evs|
  {
    if evs == [] then (e, [])
    else
      var before := EagerRun(e, evs[..|evs| - 1]);
      var after := EagerStep(before.0, evs[|evs| - 1]);
      (after.0, before.1 + [after.1])
  }

  function EagerRead(e: Eager, p: Slot, page: nat, off: nat): Observation
    requires EagerShape(e)
  {
    if !EagerLive(e, p) || !EagerPage(e, p, page) || off >= PAGE_SIZE then Unmapped
    else if IsCode(page) then Value(e.code[page - PAG_LOG_INIT_CODE][off])
    else if IsData(page) then Value(e.priv[p][page - PAG_LOG_INIT_DATA][off])
    else Value(e.shared[e.att[p][page]][off])
  }

  // ---- the simulation relation -----------------------------------------

  ghost predicate PrivRel(pt: Tables, ram: Ram, priv: seq<Privates>)
    requires |priv| == NR_TASKS
  {
    forall p, k :: DataAt(pt, p, k) ==> priv[p][k - PAG_LOG_INIT_DATA] == ram[pt[p][k].frame]
  }

  ghost predicate AttRel(pt: Tables, shm: Regions, att: seq<Attachments>, p: Slot, k: int)
    requires |att| == NR_TASKS && IsShared(k)
  {
    if k in att[p] then pt[p][k].present && pt[p][k].frame == shm[att[p][k]].frame else !pt[p][k].present
  }

  ghost predicate AttsRel(s: State, att: seq<Attachments>)
    requires |att| == NR_TASKS
  {
    forall p, k :: Live(s, p) && IsShared(k) ==> AttRel(s.pt, s.shm, att, p, k)
  }

  ghost predicate SharedRel(shm: Regions, ram: Ram, shared: seq<Page>)
    requires |shared| == NUM_REGIONS
  {
    forall i :: 0 <= i < NUM_REGIONS ==> shared[i] == ram[shm[i].frame]
  }

  ghost predicate LowRel(s: State, low: seq<set<int>>)
    requires |low| == NR_TASKS
  {
    forall p, k :: Live(s, p) && 0 <= k < PAG_LOG_INIT_CODE ==> (k in low[p] <==> !s.pt[p][k].present)
  }

  ghost predicate CodeRel(ram: Ram, code: seq<Page>)
    requires |code| == NUM_PAG_CODE
  {
    forall k :: IsCode(k) ==> code[k - PAG_LOG_INIT_CODE] == ram[CodeFrame(k)]
  }

  ghost predicate RamRel(pt: Tables, shm: Regions, ram: Ram, e: Eager)
    requires EagerShape(e)
  {
    PrivRel(pt, ram, e.priv) && CodeRel(ram, e.code) && SharedRel(shm, ram, e.shared)
  }

  ghost predicate MapRel(s: State, e: Eager)
    requires EagerShape(e)
  {
    AttsRel(s, e.att) && LowRel(s, e.low)
  }

  ghost predicate Rel(s: State, e: Eager) {
    EagerShape(e) && e.free == s.free && MapRel(s, e) && RamRel(s.pt, s.shm, s.ram, e)
  }

  lemma LiveRel(s: State, e: Eager, p: Slot, page: nat)
    requires Rel(s, e) && TablesOk(s) && CodeOk(s) && UserOk(s) && Live(s, p)
    ensures UserPage(s, p, page) <==> EagerPage(e, p, page)
  {
    assert PAG_LOG_INIT_CODE <= page < TOTAL_PAGES ==> UserAt(s.pt, p, page);
    if IsShared(page) {
      assert AttRel(s.pt, s.shm, e.att, p, page);
    } else if IsData(page) {
      assert s.pt[p][page].present;
    }
  }

  lemma ReadRel(s: State, e: Eager, p: Slot, page: nat, off: nat)
    requires Inv(s) && Rel(s, e)
    ensures Read(s, p, page, off) == EagerRead(e, p, page, off)
  {
    if Live(s, p) {
      LiveRel(s, e, p, page);
      if IsData(page) {
        assert DataAt(s.pt, p, page);
      } else if IsShared(page) {
        assert AttRel(s.pt, s.shm, e.att, p, page);
      }
    }
  }

  // ---- fork ------------------------------------------------------------

  lemma ForkRel(s: State, e: Eager, p: Slot)
    requires Inv(s) && Rel(s, e) && Live(s, p)
    ensures Rel(Fork(s, p).0, EagerFork(e, p).0) && Fork(s, p).1 == EagerFork(e, p).1
  {
    ForkKeepsInv(s, p);
    if s.free != [] {
      PoolSuffices(s);
      ForkShape(s, p, s.free[0]);
      ForkCopies(s, p, s.free[0]);
      ForkOkRel(s, ForkOk(s, p), e, p, s.free[0]);
    }
  }

  lemma ForkOkRel(s: State, s': State, e: Eager, p: Slot, c: Slot)
    requires Rel(s, e) && Live(s, p) && s.free != [] && s'.free == s.free[1..] && s'.ram == s.ram
    requires DataCopied(s.pt, s'.pt, p, c) && SharedCopied(s.pt, s'.pt, p, c) && LowCopied(s.pt, s'.pt, p, c)
    requires SameRegions(s.shm, s'.shm) && OneMoreLive(s, s', c)
    ensures Rel(s', Duplicated(e, p, c))
  {
    ForkPrivRel(s.pt, s'.pt, s.ram, e.priv, p, c);
    ForkAttRel(s, s', e.att, p, c);
    ForkLowRel(s, s', e.low, p, c);
  }

  lemma ForkPrivRel(pt: Tables, pt': Tables, ram: Ram, priv: seq<Privates>, p: Slot, c: Slot)
    requires |priv| == NR_TASKS && PrivRel(pt, ram, priv) && DataCopied(pt, pt', p, c)
    ensures PrivRel(pt', ram, priv[c := priv[p]])
  {
    forall q, k | DataAt(pt', q, k) ensures priv[c := priv[p]][q][k - PAG_LOG_INIT_DATA] == ram[pt'[q][k].frame] {
      assert DataAt(pt, Origin(p, c, q), k);
    }
  }

  lemma ForkAttRel(s: State, s': State, att: seq<Attachments>, p: Slot, c: Slot)
    requires |att| == NR_TASKS && AttsRel(s, att) && SharedCopied(s.pt, s'.pt, p, c)
    requires SameRegions(s.shm, s'.shm) && OneMoreLive(s, s', c) && Live(s, p)
    ensures AttsRel(s', att[c := att[p]])
  {
    forall q, k | Live(s', q) && IsShared(k) ensures AttRel(s'.pt, s'.shm, att[c := att[p]], q, k) {
      assert AttRel(s.pt, s.shm, att, Origin(p, c, q), k);
    }
  }

  lemma ForkLowRel(s: State, s': State, low: seq<set<int>>, p: Slot, c: Slot)
    requires |low| == NR_TASKS && LowRel(s, low) && LowCopied(s.pt, s'.pt, p, c) && OneMoreLive(s, s', c)
    ensures LowRel(s', low[c := {}])
  {
    forall q, k | Live(s', q) && 0 <= k < PAG_LOG_INIT_CODE ensures k in low[c := {}][q] <==> !s'.pt[q][k].present {
      assert q != c ==> Live(s, q);
    }
  }

  // ---- write -----------------------------------------------------------

  /** The same mappings outside the code and the data, writable or not. */
  ghost predicate SameMaps(s: State, s': State) {
    && s'.free == s.free && SameRegions(s.shm, s'.shm)
    && (forall q: Slot, l :: 0 <= l < PAG_LOG_INIT_CODE ==> s'.pt[q][l].present == s.pt[q][l].present)
    && (forall q: Slot, l :: IsShared(l) ==> s'.pt[q][l].present == s.pt[q][l].present && s'.pt[q][l].frame == s.pt[q][l].frame)
  }

  lemma MapsKept(s: State, s': State, e: Eager)
    requires EagerShape(e) && MapRel(s, e) && SameMaps(s, s')
    ensures MapRel(s', e)
  {
    forall q, l | Live(s', q) && IsShared(l) ensures AttRel(s'.pt, s'.shm, e.att, q, l) {
      assert Live(s, q) && AttRel(s.pt, s.shm, e.att, q, l);
    }
    forall q, l | Live(s', q) && 0 <= l < PAG_LOG_INIT_CODE ensures l in e.low[q] <==> !s'.pt[q][l].present {
      assert Live(s, q);
    }
  }

  /** The split copies a page to a frame that nobody sees and maps that instead. */
  lemma SplitRam(s: State, e: Eager, p: Slot, k: int, g: Frame, s': State)
    requires EagerShape(e) && RamRel(s.pt, s.shm, s.ram, e) && CountsOk(s.pt, s.phys)
    requires Splits(s.pt, s.phys, p, k, g, s'.pt, s'.phys) && s'.ram == s.ram[g := s.ram[s.pt[p][k].frame]]
    requires g >= FIRST_DATA_FRAME && !IsRegion(s.shm, g)
    ensures RamRel(s'.pt, s.shm, s'.ram, e)
  {
    FreeIsUnmapped(s.pt, s.phys, g);
    forall q, l | DataAt(s'.pt, q, l) ensures e.priv[q][l - PAG_LOG_INIT_DATA] == s'.ram[s'.pt[q][l].frame] {
      assert DataAt(s.pt, q, l);
    }
    RegionNot(s.shm, g);
  }

  lemma RegionNot(shm: Regions, f: Frame)
    requires !IsRegion(shm, f)
    ensures forall i :: 0 <= i < NUM_REGIONS ==> shm[i].frame != f
  {
    forall i | 0 <= i < NUM_REGIONS ensures shm[i].frame != f {
      assert IsRegion(shm, shm[i].frame);
    }
  }

  /** Making a page writable shows nowhere. */
  lemma EnableRam(pt: Tables, shm: Regions, ram: Ram, e: Eager, p: Slot, k: nat)
    requires EagerShape(e) && RamRel(pt, shm, ram, e) && k < TOTAL_PAGES
    ensures RamRel(Remap(pt, p, k, pt[p][k].(rw := true)), shm, ram, e)
  {
    var pt' := Remap(pt, p, k, pt[p][k].(rw := true));
    forall q, l | DataAt(pt', q, l) ensures e.priv[q][l - PAG_LOG_INIT_DATA] == ram[pt'[q][l].frame] {
      assert DataAt(pt, q, l);
    }
  }

  /** A fault shows in no read. */
  lemma FaultRel(s: State, e: Eager, p: Slot, k: int)
    requires Inv(s) && Rel(s, e) && Live(s, p) && (DataAt(s.pt, p, k) || IsCode(k))
    ensures FaultReady(s, p, k) && Rel(Fault(s, p, k), e)
  {
    if IsCode(k) {
      FaultElsewhere(s, p, k);
    } else {
      FaultKeepsInv(s, p, k);
    }
    var s' := Fault(s, p, k);
    if MustSplit(s, p, k) {
      SplitIsStep(s, p, k);
      FreeIsData(s);
      SplitRam(s, e, p, k, FreePool(s)[0], s');
    } else {
      EnableRam(s.pt, s.shm, s.ram, e, p, k);
    }
    FaultMaps(s, p, k);
    MapsKept(s, s', e);
  }

  lemma FaultMaps(s: State, p: Slot, k: nat)
    requires SharedOk(s) && FaultReady(s, p, k)
    ensures SameMaps(s, Fault(s, p, k)) || !(IsCode(k) || IsData(k))
  {
    WindowKept(s, p);
  }

  /** The frame of a writable data page is mapped nowhere else. */
  lemma WritableAlone(pt: Tables, phys: FrameCounts, p: Slot, k: int, q: Slot, l: int)
    requires OnePage(pt) && CountsOk(pt, phys) && WritableIsPrivate(pt, phys)
    requires DataAt(pt, p, k) && pt[p][k].rw && DataAt(pt, q, l) && pt[q][l].frame == pt[p][k].frame
    ensures q == p && l == k
  {
    if q != p {
      SharedNotWritable(pt, phys, p, q, k);
    }
  }

  lemma StoreDataRel(s: State, e: Eager, p: Slot, k: int, off: nat, b: Byte)
    requires OnePage(s.pt) && CountsOk(s.pt, s.phys) && WritableIsPrivate(s.pt, s.phys) && TablesOk(s) && RegionsOk(s)
    requires Rel(s, e) && DataAt(s.pt, p, k) && s.pt[p][k].rw && off < PAGE_SIZE
    ensures var d := k - PAG_LOG_INIT_DATA;
      Rel(Store(s, s.pt[p][k].frame, off, b), e.(priv := e.priv[p := e.priv[p][d := Poked(e.priv[p][d], off, b)]]))
  {
    var f := s.pt[p][k].frame;
    forall q, l | DataAt(s.pt, q, l) && s.pt[q][l].frame == f ensures q == p && l == k {
      WritableAlone(s.pt, s.phys, p, k, q, l);
    }
    StorePriv(s.pt, s.ram, e.priv, p, k, off, b);
    RegionNot(s.shm, f);
    MapsKept(s, Store(s, f, off, b), e);
  }

  lemma StorePriv(pt: Tables, ram: Ram, priv: seq<Privates>, p: Slot, k: int, off: nat, b: Byte)
    requires |priv| == NR_TASKS && PrivRel(pt, ram, priv) && DataAt(pt, p, k) && off < PAGE_SIZE
    requires forall q, l :: DataAt(pt, q, l) && pt[q][l].frame == pt[p][k].frame ==> q == p && l == k
    ensures var f, d := pt[p][k].frame, k - PAG_LOG_INIT_DATA;
      PrivRel(pt, ram[f := Poked(ram[f], off, b)], priv[p := priv[p][d := Poked(priv[p][d], off, b)]])
  {
  }

  /** A write to a code page goes to a frame that is neither data nor a region. */
  lemma StoreCodeRel(s: State, e: Eager, k: int, off: nat, b: Byte)
    requires TablesOk(s) && RegionsOk(s) && Rel(s, e) && IsCode(k) && off < PAGE_SIZE
    ensures var j := k - PAG_LOG_INIT_CODE;
      Rel(Store(s, CodeFrame(k), off, b), e.(code := e.code[j := Poked(e.code[j], off, b)]))
  {
    var s' := Store(s, CodeFrame(k), off, b);
    forall q, l | DataAt(s.pt, q, l) ensures e.priv[q][l - PAG_LOG_INIT_DATA] == s'.ram[s.pt[q][l].frame] {
    }
    MapsKept(s, s', e);
  }

  lemma StoreSharedRel(s: State, e: Eager, i: int, off: nat, b: Byte)
    requires TablesOk(s) && RegionsOk(s) && Rel(s, e) && 0 <= i < NUM_REGIONS && off < PAGE_SIZE
    ensures Rel(Store(s, s.shm[i].frame, off, b), e.(shared := e.shared[i := Poked(e.shared[i], off, b)]))
  {
    var f := s.shm[i].frame;
    var s' := Store(s, f, off, b);
    assert IsRegion(s.shm, f);
    forall q, l | DataAt(s.pt, q, l) ensures e.priv[q][l - PAG_LOG_INIT_DATA] == s'.ram[s.pt[q][l].frame] {
      assert s.pt[q][l].frame != f;
    }
    MapsKept(s, s', e);
  }

  /** A write to a page that is writable. */
  lemma StoreRel(s: State, e: Eager, p: Slot, k: nat, off: nat, b: Byte)
    requires Inv(s) && Rel(s, e) && Live(s, p) && UserPage(s, p, k) && off < PAGE_SIZE && EagerPage(e, p, k)
    requires s.pt[p][k].rw
    ensures Rel(Store(s, s.pt[p][k].frame, off, b), EagerWrite(e, p, k, off, b))
  {
    if IsData(k) {
      StoreDataRel(s, e, p, k, off, b);
    } else if IsCode(k) {
      StoreCodeRel(s, e, k, off, b);
    } else {
      assert AttRel(s.pt, s.shm, e.att, p, k);
      StoreSharedRel(s, e, e.att[p][k], off, b);
    }
  }

  lemma WriteRel(s: State, e: Eager, p: Slot, k: nat, off: nat, b: Byte)
    requires Inv(s) && Rel(s, e) && Live(s, p) && UserPage(s, p, k) && off < PAGE_SIZE && EagerPage(e, p, k)
    requires WriteReady(s, p, k)
    ensures Rel(Write(s, p, k, off, b), EagerWrite(e, p, k, off, b))
  {
    if s.pt[p][k].rw {
      StoreRel(s, e, p, k, off, b);
    } else {
      assert !IsShared(k);
      var s' := Fault(s, p, k);
      FaultRel(s, e, p, k);
      FaultInv(s, p, k);
      StoreRel(s', e, p, k, off, b);
    }
  }

  lemma FaultInv(s: State, p: Slot, k: nat)
    requires Inv(s) && Live(s, p) && UserPage(s, p, k) && !IsShared(k)
    ensures FaultReady(s, p, k)
    ensures var s' := Fault(s, p, k); Inv(s') && Live(s', p) && UserPage(s', p, k) && s'.pt[p][k].rw
  {
    if IsCode(k) {
      FaultElsewhere(s, p, k);
      CodeFaultKeepsInv(s, p, k);
    } else {
      assert DataAt(s.pt, p, k);
      FaultKeepsInv(s, p, k);
    }
  }

  // ---- attach ----------------------------------------------------------

  lemma {:induction false} FirstRel(s: State, e: Eager, p: Slot, k: nat)
    requires Rel(s, e) && TablesOk(s) && CodeOk(s) && Live(s, p) && k <= TOTAL_PAGES
    ensures FirstAbsent(s.pt[p], k) == FirstUnused(e.att[p], e.low[p], k)
    decreases TOTAL_PAGES - k
  {
    if k < TOTAL_PAGES {
      if IsShared(k) {
        assert AttRel(s.pt, s.shm, e.att, p, k);
      } else {
        assert IsCode(k) || IsData(k) ==> s.pt[p][k].present;
      }
      FirstRel(s, e, p, k + 1);
    }
  }

  lemma AttachRel(s: State, e: Eager, p: Slot, id: int, page: nat)
    requires Inv(s) && Rel(s, e) && Live(s, p) && page < TOTAL_PAGES
    ensures Rel(Attach(s, p, id, page).0, EagerAttach(e, p, id, page).0)
    ensures Attach(s, p, id, page).1 == EagerAttach(e, p, id, page).1
  {
    FirstRel(s, e, p, page);
    AttachKeepsInv(s, p, id, page);
    var (s', outcome) := Attach(s, p, id, page);
    if outcome.At? {
      var k := outcome.page;
      AttachStepRel(s, s', e, p, k, id);
    }
  }

  lemma AttachStepRel(s: State, s': State, e: Eager, p: Slot, k: int, id: nat)
    requires Rel(s, e) && Attaches(s, s', p, k, id)
    ensures Rel(s', Shown(e, p, k, id))
  {
    var att', low' := Shown(e, p, k, id).att, Shown(e, p, k, id).low;
    forall q, l | Live(s', q) && 0 <= l < PAG_LOG_INIT_CODE ensures l in low'[q] <==> !s'.pt[q][l].present {
      assert Live(s, q);
    }
    forall q, l | DataAt(s'.pt, q, l) ensures e.priv[q][l - PAG_LOG_INIT_DATA] == s'.ram[s'.pt[q][l].frame] {
      assert DataAt(s.pt, q, l);
    }
    forall q, l | Live(s', q) && IsShared(l) ensures AttRel(s'.pt, s'.shm, att', q, l) {
      assert Live(s, q) && AttRel(s.pt, s.shm, e.att, q, l);
    }
  }

  // ---- runs ------------------------------------------------------------

  lemma StepRel(s: State, e: Eager, ev: Event)
    requires Inv(s) && Rel(s, e)
    ensures Rel(Step(s, ev).0, EagerStep(e, ev).0)
    ensures Step(s, ev).1 == EagerStep(e, ev).1
  {
    if Live(s, ev.p) {
      match ev
      case DoFork(p) => ForkRel(s, e, p);
      case DoWrite(p, page, off, b) =>
        LiveRel(s, e, p, page);
        if Enabled(s, ev) {
          WriteKeepsInv(s, p, page, off, b);
          WriteRel(s, e, p, page, off, b);
        }
      case DoAttach(p, id, page) =>
        if Enabled(s, ev) {
          AttachRel(s, e, p, id, page);
        }
    }
  }

  /** Only attaches below the code add references that the shared pages do not account for. */
  lemma StepRefs(s: State, ev: Event, i: int)
    requires Inv(s) && 0 <= i < NUM_REGIONS
    ensures var (s', a) := Step(s, ev);
      Unaccounted(s'.pt, s'.shm, i) == Unaccounted(s.pt, s.shm, i) + if AttachedLow(ev, a, i) then 1 else 0
  {
    if Enabled(s, ev) {
      match ev
      case DoFork(p) => ForkRefs(s, p, i);
      case DoWrite(p, page, off, b) =>
        WriteKeepsInv(s, p, page, off, b);
        WriteRefs(s, p, page, off, b, i);
      case DoAttach(p, id, page) =>
        AttachKeepsInv(s, p, id, page);
        var (s', outcome) := Attach(s, p, id, page);
        if outcome.At? {
          AttachRefs(s, s', p, outcome.page, id, i);
        }
    }
  }

  lemma {:induction false} RunRefs(s: State, evs: seq<Event>, i: int)
    requires Inv(s) && 0 <= i < NUM_REGIONS
    ensures var (s', answers) := Run(s, evs);
      Unaccounted(s'.pt, s'.shm, i) == Unaccounted(s.pt, s.shm, i) + LowAttaches(evs, answers, i)
    decreases |evs|
  {
    if evs != [] {
      var rest, answers := evs[..|evs| - 1], Run(s, evs).1;
      RunRefs(s, rest, i);
      StepRefs(Run(s, rest).0, evs[|evs| - 1], i);
      assert answers[..|evs| - 1] == Run(s, rest).1;
    }
  }

  /** Only task 1 has pages below the code left to attach at. */
  ghost predicate LowLeft(e: Eager, n: nat)
    requires EagerShape(e)
  {
    |e.low[1]| == n && forall p: Slot :: EagerLive(e, p) && p != 1 ==> e.low[p] == {}
  }

  lemma LowStep(e: Eager, ev: Event, i: int, n: nat) returns (m: nat)
    requires EagerShape(e) && LowLeft(e, n) && 1 !in e.free
    ensures var (e', a) := EagerStep(e, ev);
      LowLeft(e', m) && 1 !in e'.free && m + (if AttachedLow(ev, a, i) then 1 else 0) <= n
  {
    m := n;
    if EagerEnabled(e, ev) && ev.DoFork? && e.free != [] {
      assert e.free == [e.free[0]] + e.free[1..];
    } else if EagerEnabled(e, ev) && ev.DoAttach? && EagerAttach(e, ev.p, ev.id, ev.page).1.At? {
      var k := FirstUnused(e.att[ev.p], e.low[ev.p], ev.page);
      FirstIsUnused(e.att[ev.p], e.low[ev.p], ev.page);
      if k < PAG_LOG_INIT_CODE {
        m := n - 1;
      }
    }
  }

  lemma {:induction false} FirstIsUnused(att: Attachments, low: set<int>, k: nat)
    requires k <= TOTAL_PAGES
    ensures var r := FirstUnused(att, low, k); r < PAG_LOG_INIT_CODE ==> r in low
    decreases TOTAL_PAGES - k
  {
    if k < TOTAL_PAGES {
      FirstIsUnused(att, low, k + 1);
    }
  }

  lemma {:induction false} LowRun(e: Eager, evs: seq<Event>, i: int, n: nat) returns (m: nat)
    requires EagerShape(e) && LowLeft(e, n) && 1 !in e.free
    ensures var (e', answers) := EagerRun(e, evs);
      LowLeft(e', m) && 1 !in e'.free && m + LowAttaches(evs, answers, i) <= n
    decreases |evs|
  {
    m := n;
    if evs != [] {
      var rest, answers := evs[..|evs| - 1], EagerRun(e, evs).1;
      m := LowRun(e, rest, i, n);
      m := LowStep(EagerRun(e, rest).0, evs[|evs| - 1], i, m);
      assert answers[..|evs| - 1] == EagerRun(e, rest).1;
    }
  }

  lemma {:induction false} RunRel(s: State, e: Eager, evs: seq<Event>)
    requires Inv(s) && Rel(s, e)
    ensures Rel(Run(s, evs).0, EagerRun(e, evs).0)
    ensures Run(s, evs).1 == EagerRun(e, evs).1
    decreases |evs|
  {
    if evs != [] {
      var rest := evs[..|evs| - 1];
      RunRel(s, e, rest);
      StepRel(Run(s, rest).0, EagerRun(e, rest).0, evs[|evs| - 1]);
    }
  }
}
