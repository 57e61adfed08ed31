/** The memory management of the kernel as the C code does it, in place: counters, page
    tables, physical memory and shared regions are arrays that its routines overwrite. */
module KernelMemory {
  import opened Common
  import opened Paging
  import opened AddressSpaces
  import opened ForkSteps
  import opened BootImage
  import CopyData

  /** The bytes of the physical memory, cut into pages. */
  ghost predicate RamIs(bytes: seq<Byte>, m: Ram)
    requires |bytes| == TOTAL_PAGES * PAGE_SIZE
  {
    forall f, o :: 0 <= f < TOTAL_PAGES && 0 <= o < PAGE_SIZE ==> m[f][o] == bytes[f * PAGE_SIZE + o]
  }

  lemma PageMoved(bytes: seq<Byte>, m: Ram, f: Frame, g: Frame, s: nat, d: nat)
    requires |bytes| == TOTAL_PAGES * PAGE_SIZE && RamIs(bytes, m) && s == f * PAGE_SIZE && d == g * PAGE_SIZE
    ensures RamIs(CopyData.Moved(bytes, s, d, PAGE_SIZE), m[g := m[f]])
  {
    var moved := CopyData.Moved(bytes, s, d, PAGE_SIZE);
    var pages := m[g := m[f]];
    forall h, o | 0 <= h < TOTAL_PAGES && 0 <= o < PAGE_SIZE ensures pages[h][o] == moved[h * PAGE_SIZE + o] {
      assert m[f][o] == bytes[f * PAGE_SIZE + o];
    }
  }

  ghost function PagesOf(bytes: seq<Byte>): (r: Ram)
    requires |bytes| == TOTAL_PAGES * PAGE_SIZE
    ensures RamIs(bytes, r)
  {
    seq<Page>(TOTAL_PAGES, f requires 0 <= f < TOTAL_PAGES => bytes[f * PAGE_SIZE..(f + 1) * PAGE_SIZE])
  }

  /** Two pages are in bounds, and one or apart. */
  lemma PagesApart(f: Frame, g: Frame, s: nat, d: nat)
    requires s == f * PAGE_SIZE && d == g * PAGE_SIZE
    ensures s + PAGE_SIZE <= TOTAL_PAGES * PAGE_SIZE && d + PAGE_SIZE <= TOTAL_PAGES * PAGE_SIZE
    ensures d <= s || s + PAGE_SIZE <= d
  {
  }

  method CopyPhysicalPage(ram: array<Byte>, ghost m: Ram, f: Frame, g: Frame, size: nat)
    requires ram.Length == TOTAL_PAGES * PAGE_SIZE && RamIs(ram[..], m) && size == PAGE_SIZE
    modifies ram
    ensures RamIs(ram[..], m[g := m[f]])
  {
    ghost var bytes: seq<Byte> := ram[..];
    var s, d := f * PAGE_SIZE, g * PAGE_SIZE;
    PagesApart(f, g, s, d);
    CopyData.CopyData(ram, s, d, size);
    CopyData.CopyMoves(bytes, ram[..], s, d, size);
    PageMoved(bytes, m, f, g, s, d);
  }

  /** What the caller of sys_shmat learns from r. An address is that of a whole page, the first one from the
      requested one on that was absent, and that page now maps the frame of region id. */
  ghost predicate ShmatTells(s: State, p: Slot, id: int, addr: nat, s': State, r: int)
    requires addr < 4096 * 1024
  {
    && (addr % 4096 != 0 <==> r == -125)
    && (r < 0 ==> s' == s && (r == -125 || r == -22))
    && (r == -22 <==> addr % 4096 == 0 && (id < 0 || id >= 10 || forall j :: addr / 4096 <= j < 1024 ==> s.pt[p][j].present))
    && (r >= 0 ==>
          && addr <= r < 4096 * 1024 && r % 4096 == 0 && 0 <= id < 10
          && !s.pt[p][r / 4096].present && (forall j :: addr / 4096 <= j < r / 4096 ==> s.pt[p][j].present)
          && s'.pt == s.pt[p := s.pt[p][r / 4096 := Entry(s.shm[id].frame, true, true, true)]]
          && s'.shm == s.shm[id := Region(s.shm[id].frame, s.shm[id].refs + 1)]
          && s'.phys == s.phys && s'.ram == s.ram && s'.free == s.free)
  }

  lemma ShmatMeans(s: State, p: Slot, id: int, addr: nat)
    requires addr < TOTAL_PAGES * PAGE_SIZE
    ensures addr % PAGE_SIZE != 0 ==> ShmatTells(s, p, id, addr, s, -Kernel.ECANCELED)
    ensures addr % PAGE_SIZE == 0 ==>
      var (s', outcome) := Attach(s, p, id, addr / PAGE_SIZE);
      ShmatTells(s, p, id, addr, s', Kernel.ShmatResult(outcome))
  {
    if addr % PAGE_SIZE == 0 && 0 <= id < NUM_REGIONS {
      var k := FirstAbsent(s.pt[p], addr / PAGE_SIZE);
      PageOf(k, 0);
    }
  }

  /** Offset o of the page at address r. */
  lemma PageOf(k: nat, o: nat)
    requires o < 4096
    ensures (k * PAGE_SIZE + o) / 4096 == k && (k * PAGE_SIZE + o) % 4096 == o
  {
  }

  /** A store through the address that sys_shmat returned, plus o, goes to byte o of the region. */
  lemma StoreThrough(s: State, p: Slot, id: int, addr: nat, s': State, r: int, o: nat, b: Byte)
    requires addr < 4096 * 1024 && ShmatTells(s, p, id, addr, s', r) && r >= 1024 * 1024 && o < 4096
    ensures var f := s.shm[id].frame;
      && WriteReady(s', p, (r + o) / 4096)
      && Write(s', p, (r + o) / 4096, (r + o) % 4096, b).ram == s.ram[f := s.ram[f][o := b]]
  {
    PageOf(r / 4096, o);
    assert r == (r / 4096) * PAGE_SIZE;
  }

  class Kernel {
    const physMem: array<Byte>
    const pagusrTable: seq<array<Entry>>
    const ram: array<Byte>
    const shmMem: array<Region>
    var freequeue: seq<Slot>

    /** The value of all of the above. */
    ghost var mem: State

    ghost predicate Shape() {
      && physMem.Length == TOTAL_PAGES && physMem != ram
      && |pagusrTable| == NR_TASKS
      && (forall p :: 0 <= p < NR_TASKS ==> pagusrTable[p].Length == TOTAL_PAGES)
      && (forall p, q :: 0 <= p < q < NR_TASKS ==> pagusrTable[p] != pagusrTable[q])
      && ram.Length == TOTAL_PAGES * PAGE_SIZE
      && shmMem.Length == NUM_REGIONS
    }

    ghost predicate Valid()
      reads this, physMem, ram, shmMem, pagusrTable
    {
      && Shape()
      && physMem[..] == mem.phys && shmMem[..] == mem.shm && freequeue == mem.free
      && (forall p :: 0 <= p < NR_TASKS ==> pagusrTable[p][..] == mem.pt[p])
      && RamIs(ram[..], mem.ram)
    }

    // ---- boot --------------------------------------------------------------

    /** The static memory of the kernel, and the bytes that the loader left in physical memory. */
    constructor Static(loaded: seq<Byte>)
      requires |loaded| == TOTAL_PAGES * PAGE_SIZE
      ensures Valid() && mem.ram == PagesOf(loaded)
      ensures mem.shm == seq<Region>(NUM_REGIONS, _ => Region(0, 0))
      ensures mem.free == []
      ensures fresh(physMem) && fresh(ram) && fresh(shmMem)
      ensures forall p :: 0 <= p < NR_TASKS ==> fresh(pagusrTable[p])
    {
      var tables: seq<array<Entry>> := [];
      var i := 0;
      while i < NR_TASKS
        invariant i <= NR_TASKS && |tables| == i
        invariant forall p :: 0 <= p < i ==> fresh(tables[p]) && tables[p].Length == TOTAL_PAGES && tables[p][..] == EMPTY_TABLE
        invariant forall p, q :: 0 <= p < q < i ==> tables[p] != tables[q]
      {
        var t := new Entry[TOTAL_PAGES](_ => NO_ENTRY);
        assert t[..] == EMPTY_TABLE;
        tables := tables + [t];
        i := i + 1;
      }
      var counts := new Byte[TOTAL_PAGES](_ => FREE_FRAME);
      var bytes := new Byte[TOTAL_PAGES * PAGE_SIZE](i requires 0 <= i < |loaded| => loaded[i]);
      assert bytes[..] == loaded;
      var regions := new Region[NUM_REGIONS](_ => Region(0, 0));
      physMem, pagusrTable, ram, shmMem, freequeue := counts, tables, bytes, regions, [];
      mem := State(counts[..], seq<Table>(NR_TASKS, _ => EMPTY_TABLE), PagesOf(bytes[..]), regions[..], []);
    }

    // ---- mm.c --------------------------------------------------------------

    /** The first free frame in steps of two, now used; -1 when there is none. */
    method AllocFrame() returns (frame: int)
      requires Valid()
      modifies this`mem, physMem
      ensures Valid()
      ensures if FreePool(old(mem)) == [] then frame == -1 && mem == old(mem)
        else frame == FreePool(old(mem))[0] && mem == old(mem).(phys := old(mem).phys[frame := USED_FRAME])
    {
      var i := NUM_PAG_KERNEL;
      while i < TOTAL_PAGES
        invariant NUM_PAG_KERNEL <= i && Pool(mem.phys, i) == FreePool(mem)
        invariant Valid() && mem == old(mem)
      {
        if physMem[i] == FREE_FRAME {
          physMem[i] := USED_FRAME;
          mem := mem.(phys := mem.phys[i := USED_FRAME]);
          return i;
        }
        i := i + 2;
      }
      return -1;
    }

    /** Frames up to NUM_PAG_KERNEL are never freed. */
    method FreeFrame(frame: int)
      requires Valid()
      modifies this`mem, physMem
      ensures Valid()
      ensures mem == if NUM_PAG_KERNEL < frame < TOTAL_PAGES then old(mem).(phys := old(mem).phys[frame := FREE_FRAME]) else old(mem)
    {
      if NUM_PAG_KERNEL < frame < TOTAL_PAGES {
        physMem[frame] := FREE_FRAME;
        mem := mem.(phys := mem.phys[frame := FREE_FRAME]);
      }
    }

    /** Any write of an entry in the table of slot p. */
    method SetEntry(p: Slot, page: nat, e: Entry)
      requires Valid() && page < TOTAL_PAGES
      modifies this`mem, pagusrTable[p]
      ensures Valid()
      ensures mem == old(mem).(pt := old(mem).pt[p := old(mem).pt[p][page := e]])
    {
      pagusrTable[p][page] := e;
      mem := mem.(pt := mem.pt[p := mem.pt[p][page := e]]);
    }

    method SetSsPag(p: Slot, page: nat, frame: Frame)
      requires Valid() && page < TOTAL_PAGES
      modifies this`mem, pagusrTable[p]
      ensures Valid()
      ensures mem == old(mem).(pt := old(mem).pt[p := old(mem).pt[p][page := Mapped(frame)]])
    {
      SetEntry(p, page, Entry(frame, true, true, true));
    }

    method DelSsPag(p: Slot, page: nat)
      requires Valid() && page < TOTAL_PAGES
      modifies this`mem, pagusrTable[p]
      ensures Valid()
      ensures mem == old(mem).(pt := old(mem).pt[p := old(mem).pt[p][page := NO_ENTRY]])
    {
      SetEntry(p, page, Entry(0, false, false, false));
    }

    method SetRw(p: Slot, page: nat, rw: bool)
      requires Valid() && page < TOTAL_PAGES
      modifies this`mem, pagusrTable[p]
      ensures Valid()
      ensures mem == old(mem).(pt := old(mem).pt[p := old(mem).pt[p][page := old(mem).pt[p][page].(rw := rw)]])
    {
      SetEntry(p, page, pagusrTable[p][page].(rw := rw));
    }

    function GetFrame(p: Slot, page: nat): (f: Frame)
      requires Valid() && page < TOTAL_PAGES
      reads this, physMem, ram, shmMem, pagusrTable
      ensures f == mem.pt[p][page].frame
    {
      assert pagusrTable[p][..][page] == mem.pt[p][page];
      pagusrTable[p][page].frame
    }

    /** `phys_mem[frame]++`, a Byte. */
    method CountUp(frame: Frame)
      requires Valid()
      modifies this`mem, physMem
      ensures Valid()
      ensures mem == old(mem).(phys := old(mem).phys[frame := Incremented(old(mem).phys[frame])])
    {
      physMem[frame] := (physMem[frame] as int + 1) % 256;
      mem := mem.(phys := mem.phys[frame := Incremented(mem.phys[frame])]);
    }

    method CountDown(frame: Frame)
      requires Valid() && mem.phys[frame] > 0
      modifies this`mem, physMem
      ensures Valid()
      ensures mem == old(mem).(phys := old(mem).phys[frame := old(mem).phys[frame] - 1])
    {
      assert physMem[..][frame] == mem.phys[frame];
      physMem[frame] := physMem[frame] - 1;
      mem := mem.(phys := mem.phys[frame := mem.phys[frame] - 1]);
    }

    method AddReference(i: nat)
      requires Valid() && i < NUM_REGIONS
      modifies this`mem, shmMem
      ensures Valid()
      ensures mem == old(mem).(shm := old(mem).shm[i := old(mem).shm[i].(refs := old(mem).shm[i].refs + 1)])
    {
      shmMem[i] := shmMem[i].(refs := shmMem[i].refs + 1);
      mem := mem.(shm := mem.shm[i := mem.shm[i].(refs := mem.shm[i].refs + 1)]);
    }

    // ---- interrupt.c -------------------------------------------------------

    /** copy_data of one page, between the physical pages the two logical ones map. */
    method CopyPage(f: Frame, g: Frame)
      requires Valid()
      modifies this`mem, ram
      ensures Valid()
      ensures mem == old(mem).(ram := old(mem).ram[g := old(mem).ram[f]])
    {
      CopyPhysicalPage(ram, mem.ram, f, g, PAGE_SIZE);
      mem := mem.(ram := mem.ram[g := mem.ram[f]]);
    }

    /** The copy of a page into frame `copy`, which page WINDOW maps meanwhile. */
    method CopyThroughWindow(p: Slot, page: nat, copy: Frame)
      requires Valid() && page < TOTAL_PAGES
      modifies this`mem, ram, pagusrTable[p]
      ensures Valid()
      ensures mem == old(mem).(ram := if page == WINDOW then old(mem).ram else old(mem).ram[copy := old(mem).ram[old(mem).pt[p][page].frame]],
                               pt := old(mem).pt[p := WindowRestored(old(mem).pt[p])])
    {
      var window: int := -1;
      assert pagusrTable[p][..][WINDOW] == mem.pt[p][WINDOW];
      if pagusrTable[p][WINDOW].present {
        window := GetFrame(p, WINDOW);
      }
      SetSsPag(p, WINDOW, copy);
      CopyPage(GetFrame(p, page), GetFrame(p, WINDOW));
      assert mem.ram == if page == WINDOW then old(mem).ram else old(mem).ram[copy := old(mem).ram[old(mem).pt[p][page].frame]];
      DelSsPag(p, WINDOW);
      if window != -1 {
        SetSsPag(p, WINDOW, window);
      }
      assert mem.pt[p] == WindowRestored(old(mem).pt[p]);
      assert mem.pt == old(mem).pt[p := WindowRestored(old(mem).pt[p])];
    }

    method RemapPage(p: Slot, page: nat, frame: Frame)
      requires Valid() && page < TOTAL_PAGES
      modifies this`mem, pagusrTable[p]
      ensures Valid()
      ensures mem == old(mem).(pt := old(mem).pt[p := old(mem).pt[p][page := Mapped(frame)]])
    {
      DelSsPag(p, page);
      SetSsPag(p, page, frame);
      assert mem.pt[p] == old(mem).pt[p][page := Mapped(frame)];
      assert mem.pt == old(mem).pt[p := mem.pt[p]];
    }

    /** pagefault_routine; `hangs` stands for its endless loop. */
    method PageFault(p: Slot, page: nat) returns (hangs: bool)
      requires Valid() && FaultReady(mem, p, page)
      modifies this`mem, physMem, ram, pagusrTable[p]
      ensures Valid()
      ensures mem == Fault(old(mem), p, page) && hangs == Hangs(old(mem), p, page)
    {
      var frame := GetFrame(p, page);
      assert physMem[..][frame] == mem.phys[frame];
      hangs := physMem[frame] == 0;
      if hangs {
        return;
      } else if physMem[frame] == 1 {
        SetRw(p, page, true);
      } else {
        CountDown(frame);
        PoolDependsOnFree(old(mem).phys, mem.phys, NUM_PAG_KERNEL);
        var copy := AllocFrame();
        PoolMembers(old(mem).phys, NUM_PAG_KERNEL, copy);
        CopyThroughWindow(p, page, copy);
        RemapPage(p, page, copy);
        assert mem == Split(old(mem), p, page);
      }
    }

    /** A store of a user program: the processor faults on a read-only page and runs it again. */
    method UserWrite(p: Slot, page: nat, off: nat, b: Byte)
      requires Valid() && off < PAGE_SIZE && WriteReady(mem, p, page)
      modifies this`mem, physMem, ram, pagusrTable[p]
      ensures Valid()
      ensures mem == Write(old(mem), p, page, off, b)
    {
      assert pagusrTable[p][..][page] == mem.pt[p][page];
      if !pagusrTable[p][page].rw {
        var hangs := PageFault(p, page);
      }
      StoreByte(GetFrame(p, page), off, b);
    }

    method StoreByte(f: Frame, off: nat, b: Byte)
      requires Valid() && off < PAGE_SIZE
      modifies this`mem, ram
      ensures Valid()
      ensures mem == Store(old(mem), f, off, b)
    {
      ram[f * PAGE_SIZE + off] := b;
      mem := Store(mem, f, off, b);
    }

    // ---- sys.c: shmat ------------------------------------------------------

    static const EINVAL := 22
    static const ECANCELED := 125

    static function ShmatResult(outcome: AttachOutcome): int {
      match outcome
      case At(k) => k * PAGE_SIZE
      case BadRegion => -EINVAL
      case NoPage => -EINVAL
    }

    /** sys_shmat: the address of the attached page, or a negative error code. */
    method Shmat(p: Slot, id: int, addr: nat) returns (r: int)
      requires Valid() && addr < TOTAL_PAGES * PAGE_SIZE
      modifies this`mem, shmMem, pagusrTable[p]
      ensures Valid()
      ensures addr % PAGE_SIZE != 0 ==> mem == old(mem) && r == -ECANCELED
      ensures addr % PAGE_SIZE == 0 ==>
        && mem == Attach(old(mem), p, id, addr / PAGE_SIZE).0
        && r == ShmatResult(Attach(old(mem), p, id, addr / PAGE_SIZE).1)
      ensures ShmatTells(old(mem), p, id, addr, mem, r)
    {
      ShmatMeans(mem, p, id, addr);
      if addr % PAGE_SIZE != 0 {
        return -ECANCELED;
      }
      if id < 0 || id >= NUM_REGIONS {
        return -EINVAL;
      }
      var access := addr / PAGE_SIZE;
      while access < TOTAL_PAGES
        invariant access <= TOTAL_PAGES
        invariant Valid() && mem == old(mem)
        invariant FirstAbsent(mem.pt[p], access) == FirstAbsent(mem.pt[p], addr / PAGE_SIZE)
      {
        assert pagusrTable[p][..][access] == mem.pt[p][access];
        if !pagusrTable[p][access].present {
          assert shmMem[..][id] == mem.shm[id];
          SetSsPag(p, access, shmMem[id].frame);
          AddReference(id);
          return access * PAGE_SIZE;
        }
        access := access + 1;
      }
      return -EINVAL;
    }

    // ---- boot, once the primitives exist -----------------------------------

    method SetPresent(p: Slot, page: nat, present: bool)
      requires Valid() && page < TOTAL_PAGES
      modifies this`mem, pagusrTable[p]
      ensures Valid()
      ensures mem == old(mem).(pt := old(mem).pt[p := old(mem).pt[p][page := old(mem).pt[p][page].(present := present)]])
    {
      SetEntry(p, page, pagusrTable[p][page].(present := present));
    }

    /** init_table_pages for one table. */
    method InitTable(j: Slot, g: Guards)
      requires Valid() && 0 <= g.low < TOTAL_PAGES && 0 <= g.high < TOTAL_PAGES
      modifies this`mem, pagusrTable[j]
      ensures Valid() && mem == old(mem).(pt := old(mem).pt[j := KernelTable(g)])
    {
      var i := 0;
      assert Upto(EMPTY_TABLE, old(mem).pt[j], 0) == old(mem).pt[j];
      while i < TOTAL_PAGES
        invariant i <= TOTAL_PAGES && Valid()
        invariant mem == old(mem).(pt := old(mem).pt[j := Upto(EMPTY_TABLE, old(mem).pt[j], i)])
      {
        UptoStep(EMPTY_TABLE, old(mem).pt[j], i);
        SetEntry(j, i, NO_ENTRY);
        i := i + 1;
      }
      assert Upto(EMPTY_TABLE, old(mem).pt[j], TOTAL_PAGES) == EMPTY_TABLE;
      assert Upto(KernelTable(Guards(0, 0)), EMPTY_TABLE, 1) == EMPTY_TABLE;
      i := 1;
      while i < NUM_PAG_KERNEL
        invariant 1 <= i <= NUM_PAG_KERNEL && Valid()
        invariant mem == old(mem).(pt := old(mem).pt[j := Upto(KernelTable(Guards(0, 0)), EMPTY_TABLE, i)])
      {
        UptoStep(KernelTable(Guards(0, 0)), EMPTY_TABLE, i);
        SetEntry(j, i, Entry(i, false, true, true));
        i := i + 1;
      }
      SetPresent(j, g.low, false);
      SetPresent(j, g.high, false);
      assert mem.pt[j] == KernelTable(g);
      assert mem.pt == old(mem).pt[j := mem.pt[j]];
    }

    method InitTablePages(g: Guards)
      requires Valid() && 0 <= g.low < TOTAL_PAGES && 0 <= g.high < TOTAL_PAGES
      modifies this`mem, pagusrTable
      ensures Valid() && mem == old(mem).(pt := seq<Table>(NR_TASKS, _ => KernelTable(g)))
    {
      var j := 0;
      while j < NR_TASKS
        invariant j <= NR_TASKS && Valid() && mem == old(mem).(pt := mem.pt)
        invariant forall p :: 0 <= p < j ==> mem.pt[p] == KernelTable(g)
      {
        InitTable(j, g);
        j := j + 1;
      }
      assert mem.pt == seq<Table>(NR_TASKS, _ => KernelTable(g));
    }

    method InitFrames()
      requires Valid()
      modifies this`mem, physMem
      ensures Valid() && mem == old(mem).(phys := CountsAfter(0))
    {
      var i := 0;
      while i < TOTAL_PAGES
        invariant i <= TOTAL_PAGES && Valid() && mem == old(mem).(phys := mem.phys)
        invariant forall f :: 0 <= f < i ==> mem.phys[f] == FREE_FRAME
      {
        SetCount(i, FREE_FRAME);
        i := i + 1;
      }
      i := 0;
      while i < NUM_PAG_KERNEL
        invariant i <= NUM_PAG_KERNEL && Valid() && mem == old(mem).(phys := mem.phys)
        invariant forall f :: 0 <= f < TOTAL_PAGES ==> mem.phys[f] == if f < i then USED_FRAME else FREE_FRAME
      {
        SetCount(i, USED_FRAME);
        i := i + 1;
      }
      assert mem.phys == CountsAfter(0);
    }

    method SetCount(frame: Frame, v: Byte)
      requires Valid()
      modifies this`mem, physMem
      ensures Valid() && mem == old(mem).(phys := old(mem).phys[frame := v])
    {
      physMem[frame] := v;
      mem := mem.(phys := mem.phys[frame := v]);
    }

    /** alloc_frame when boot has taken n frames. */
    method TakeBootFrame(ghost n: nat) returns (frame: int)
      requires Valid() && mem.phys == CountsAfter(n) && NUM_PAG_KERNEL + 2 * n < TOTAL_PAGES
      modifies this`mem, physMem
      ensures Valid() && mem == old(mem).(phys := CountsAfter(n + 1)) && frame == NUM_PAG_KERNEL + 2 * n
    {
      CountsAfterStep(n);
      frame := AllocFrame();
    }

    /** set_user_pages of task 1: code, then data. */
    method SetUserPages(p: Slot, g: Guards)
      requires Valid() && mem.phys == CountsAfter(0) && mem.pt[p] == KernelTable(g)
      modifies this`mem, physMem, pagusrTable[p]
      ensures Valid()
      ensures mem == old(mem).(phys := CountsAfter(NUM_PAG_CODE + NUM_PAG_DATA), pt := old(mem).pt[p := FirstTable(g)])
    {
      SetCodePages(p, g);
      SetDataPages(p, g);
      assert Upto(FirstTable(g), KernelTable(g), PAG_LOG_SHARED) == FirstTable(g);
      assert mem.pt == old(mem).pt[p := mem.pt[p]];
    }

    method SetCodePages(p: Slot, g: Guards)
      requires Valid() && mem.phys == CountsAfter(0) && mem.pt[p] == KernelTable(g)
      modifies this`mem, physMem, pagusrTable[p]
      ensures Valid()
      ensures mem == old(mem).(phys := CountsAfter(NUM_PAG_CODE),
                               pt := old(mem).pt[p := Upto(FirstTable(g), KernelTable(g), PAG_LOG_INIT_DATA)])
    {
      var pag := 0;
      assert Upto(FirstTable(g), KernelTable(g), PAG_LOG_INIT_CODE) == KernelTable(g);
      while pag < NUM_PAG_CODE
        invariant pag <= NUM_PAG_CODE && Valid()
        invariant mem == old(mem).(phys := CountsAfter(pag),
                                   pt := old(mem).pt[p := Upto(FirstTable(g), KernelTable(g), PAG_LOG_INIT_CODE + pag)])
      {
        UptoStep(FirstTable(g), KernelTable(g), PAG_LOG_INIT_CODE + pag);
        var frame := TakeBootFrame(pag);
        SetEntry(p, PAG_LOG_INIT_CODE + pag, Entry(frame, true, false, true));
        pag := pag + 1;
      }
    }

    method SetDataPages(p: Slot, g: Guards)
      requires Valid() && mem.phys == CountsAfter(NUM_PAG_CODE)
      requires mem.pt[p] == Upto(FirstTable(g), KernelTable(g), PAG_LOG_INIT_DATA)
      modifies this`mem, physMem, pagusrTable[p]
      ensures Valid()
      ensures mem == old(mem).(phys := CountsAfter(NUM_PAG_CODE + NUM_PAG_DATA),
                               pt := old(mem).pt[p := Upto(FirstTable(g), KernelTable(g), PAG_LOG_SHARED)])
    {
      var pag := 0;
      while pag < NUM_PAG_DATA
        invariant pag <= NUM_PAG_DATA && Valid()
        invariant mem == old(mem).(phys := CountsAfter(NUM_PAG_CODE + pag),
                                   pt := old(mem).pt[p := Upto(FirstTable(g), KernelTable(g), PAG_LOG_INIT_DATA + pag)])
      {
        UptoStep(FirstTable(g), KernelTable(g), PAG_LOG_INIT_DATA + pag);
        var frame := TakeBootFrame(NUM_PAG_CODE + pag);
        SetEntry(p, PAG_LOG_INIT_DATA + pag, Entry(frame, true, true, true));
        pag := pag + 1;
      }
    }

    method SetRegion(i: nat, r: Region)
      requires Valid() && i < NUM_REGIONS
      modifies this`mem, shmMem
      ensures Valid() && mem == old(mem).(shm := old(mem).shm[i := r])
    {
      shmMem[i] := r;
      mem := mem.(shm := mem.shm[i := r]);
    }

    method InitSharedMemory()
      requires Valid() && mem.phys == CountsAfter(NUM_PAG_CODE + NUM_PAG_DATA)
      modifies this`mem, physMem, shmMem
      ensures Valid() && mem == old(mem).(phys := BootCounts(), shm := BootRegions())
    {
      var i := 0;
      while i < NUM_REGIONS
        invariant i <= NUM_REGIONS && Valid()
        invariant mem == old(mem).(phys := CountsAfter(NUM_PAG_CODE + NUM_PAG_DATA + i), shm := mem.shm)
        invariant forall j :: 0 <= j < i ==> mem.shm[j] == BootRegions()[j]
      {
        SetRegion(i, shmMem[i].(frame := 0));
        var frame := TakeBootFrame(NUM_PAG_CODE + NUM_PAG_DATA + i);
        if frame != -1 {
          SetRegion(i, Region(frame, 0));
        }
        i := i + 1;
      }
      assert mem.shm == BootRegions();
    }

    /** init_freequeue; init_idle and init_task1 then take the first two slots. */
    method InitFreeQueue()
      requires Valid()
      modifies this`mem, this`freequeue
      ensures Valid() && mem == old(mem).(free := [2, 3, 4, 5, 6, 7, 8, 9])
    {
      freequeue := [0, 1, 2, 3, 4, 5, 6, 7, 8, 9];
      mem := mem.(free := freequeue);
      var idle := TakeFreeSlot();
      var task1 := TakeFreeSlot();
    }

    /** The memory part of the boot sequence, on static memory. */
    method Boot(g: Guards)
      requires Valid() && 0 <= g.low < TOTAL_PAGES && 0 <= g.high < TOTAL_PAGES
      modifies this`mem, this`freequeue, physMem, shmMem, pagusrTable
      ensures Valid() && mem == BootState(g, old(mem).ram)
    {
      InitTablePages(g);
      InitFrames();
      InitFreeQueue();
      SetUserPages(1, g);
      InitSharedMemory();
      assert mem.pt == BootTables(g);
    }

    // ---- sys.c: fork -------------------------------------------------------

    method TakeFreeSlot() returns (c: Slot)
      requires Valid() && freequeue != []
      modifies this`mem, this`freequeue
      ensures Valid()
      ensures c == old(mem).free[0] && mem == old(mem).(free := old(mem).free[1..])
    {
      c := freequeue[0];
      freequeue := freequeue[1..];
      mem := mem.(free := mem.free[1..]);
    }

    method ReturnFreeSlot(c: Slot)
      requires Valid()
      modifies this`mem, this`freequeue
      ensures Valid()
      ensures mem == old(mem).(free := old(mem).free + [c])
    {
      freequeue := freequeue + [c];
      mem := mem.(free := mem.free + [c]);
    }

    /** Maps a new frame on data page pag of c, when there is one. */
    method AllocateDataPage(c: Slot, pag: nat, ghost s: State) returns (ok: bool)
      requires Valid() && pag < NUM_PAG_DATA && pag <= |FreePool(s)| && mem == Taken(s, c, pag)
      modifies this`mem, physMem, pagusrTable[c]
      ensures Valid()
      ensures ok == (pag < |FreePool(s)|)
      ensures mem == if ok then Taken(s, c, pag + 1) else Taken(s, c, pag)
    {
      TakenStep(s, c, pag);
      var frame := AllocFrame();
      ok := frame != -1;
      if ok {
        SetSsPag(c, PAG_LOG_INIT_DATA + pag, frame);
      }
    }

    /** Maps a new frame on each data page of c until no frame is left. */
    method AllocateData(c: Slot) returns (pag: nat)
      requires Valid()
      modifies this`mem, physMem, pagusrTable[c]
      ensures Valid()
      ensures pag <= NUM_PAG_DATA && pag <= |FreePool(old(mem))|
      ensures pag < NUM_PAG_DATA ==> pag == |FreePool(old(mem))|
      ensures mem == Taken(old(mem), c, pag)
    {
      pag := 0;
      TakenStart(mem, c);
      while pag < NUM_PAG_DATA
        invariant pag <= NUM_PAG_DATA && pag <= |FreePool(old(mem))|
        invariant Valid() && mem == Taken(old(mem), c, pag)
      {
        var ok := AllocateDataPage(c, pag, old(mem));
        if !ok {
          return;
        }
        pag := pag + 1;
      }
    }

    /** The rollback: frees and unmaps the data pages of c below page pag; s is the state before
        they were taken. */
    method DeallocateData(c: Slot, pag: nat, ghost s: State)
      requires Valid()
      requires pag == |FreePool(s)| < NUM_PAG_DATA && mem == Taken(s, c, pag)
      modifies this`mem, physMem, pagusrTable[c]
      ensures Valid()
      ensures mem == s.(phys := RolledBack(s.phys), pt := s.pt[c := Unmapped(s.pt[c], pag)])
    {
      var i := 0;
      GivenBackStart(s, c);
      while i < pag
        invariant i <= pag
        invariant Valid() && mem == GivenBack(s, c, i)
      {
        GivenBackStep(s, c, i);
        FreeFrame(GetFrame(c, PAG_LOG_INIT_DATA + i));
        DelSsPag(c, PAG_LOG_INIT_DATA + i);
        i := i + 1;
      }
      GivenBackEnd(s, c);
    }

    /** Kernel and code pages: the child maps the parent's frames. */
    method ShareCode(p: Slot, c: Slot, ghost s: State)
      requires Valid() && p != c && |FreePool(s)| >= NUM_PAG_DATA && mem == Sharing(s, p, c, 0)
      modifies this`mem, pagusrTable[c]
      ensures Valid() && mem == Sharing(s, p, c, PAG_LOG_INIT_DATA)
    {
      var pag := 0;
      while pag < NUM_PAG_KERNEL
        invariant pag <= NUM_PAG_KERNEL && Valid() && mem == Sharing(s, p, c, pag)
      {
        SharingCode(s, p, c, pag);
        SetSsPag(c, pag, GetFrame(p, pag));
        pag := pag + 1;
      }
      pag := 0;
      while pag < NUM_PAG_CODE
        invariant pag <= NUM_PAG_CODE && Valid() && mem == Sharing(s, p, c, PAG_LOG_INIT_CODE + pag)
      {
        SharingCode(s, p, c, PAG_LOG_INIT_CODE + pag);
        SetSsPag(c, PAG_LOG_INIT_CODE + pag, GetFrame(p, PAG_LOG_INIT_CODE + pag));
        pag := pag + 1;
      }
    }

    /** Data pages: both map the parent's frame read-only, and its counter grows. */
    method ShareData(p: Slot, c: Slot, ghost s: State)
      requires Valid() && p != c && |FreePool(s)| >= NUM_PAG_DATA && mem == Sharing(s, p, c, PAG_LOG_INIT_DATA)
      modifies this`mem, physMem, pagusrTable[p], pagusrTable[c]
      ensures Valid() && mem == Sharing(s, p, c, PAG_LOG_SHARED)
    {
      var pag := PAG_LOG_INIT_DATA;
      while pag < PAG_LOG_SHARED
        invariant PAG_LOG_INIT_DATA <= pag <= PAG_LOG_SHARED && Valid() && mem == Sharing(s, p, c, pag)
      {
        SharingData(s, p, c, pag);
        ShareDataPage(p, c, pag);
        pag := pag + 1;
      }
    }

    method ShareDataPage(p: Slot, c: Slot, pag: nat)
      requires Valid() && p != c && pag < TOTAL_PAGES
      modifies this`mem, physMem, pagusrTable[p], pagusrTable[c]
      ensures Valid()
      ensures var t := old(mem);
        var f := t.pt[p][pag].frame;
        mem == t.(phys := t.phys[f := Incremented(t.phys[f])],
                  pt := t.pt[c := t.pt[c][pag := Mapped(f).(rw := false)]][p := t.pt[p][pag := t.pt[p][pag].(rw := false)]])
    {
      SetSsPag(c, pag, GetFrame(p, pag));
      CountUp(GetFrame(p, pag));
      SetRw(c, pag, false);
      SetRw(p, pag, false);
      assert mem.pt[c] == old(mem).pt[c][pag := Mapped(old(mem).pt[p][pag].frame).(rw := false)];
      assert mem.pt == old(mem).pt[c := mem.pt[c]][p := mem.pt[p]];
    }

    /** Pages above the data: the child inherits the regions the parent attached. */
    method ShareRegions(p: Slot, c: Slot, ghost s: State)
      requires Valid() && p != c && |FreePool(s)| >= NUM_PAG_DATA && mem == Sharing(s, p, c, PAG_LOG_SHARED)
      modifies this`mem, shmMem, pagusrTable[c]
      ensures Valid() && mem == Sharing(s, p, c, TOTAL_PAGES)
    {
      var pag := PAG_LOG_SHARED;
      while pag < TOTAL_PAGES
        invariant PAG_LOG_SHARED <= pag <= TOTAL_PAGES && Valid() && mem == Sharing(s, p, c, pag)
      {
        SharingShared(s, p, c, pag);
        SharingTables(s, p, c, pag);
        InheritEnds(s.shm, s.pt[p], pag);
        var frame := GetFrame(p, pag);
        if frame != 0 {
          SetSsPag(c, pag, frame);
          CountInherited(frame, s.shm, s.pt[p], pag);
        }
        pag := pag + 1;
      }
    }

    /** One more reference to each region whose frame is the one on page pag of table t. */
    method CountInherited(frame: Frame, ghost shm: Regions, ghost t: Table, ghost pag: nat)
      requires Valid() && IsShared(pag) && t[pag].frame == frame && frame != 0
      requires mem.shm == Inherit(shm, t, pag)
      modifies this`mem, shmMem
      ensures Valid() && mem == old(mem).(shm := Inherit(shm, t, pag + 1))
    {
      InheritEnds(shm, t, pag);
      var i := 0;
      while i < NUM_REGIONS
        invariant i <= NUM_REGIONS && Valid()
        invariant mem == old(mem).(shm := InheritPart(shm, t, pag, i))
      {
        InheritStep(shm, t, pag, i);
        assert shmMem[..][i] == mem.shm[i];
        if shmMem[i].frame == frame {
          AddReference(i);
        }
        i := i + 1;
      }
    }

    /** The memory part of sys_fork. */
    method Fork(p: Slot) returns (r: ForkOutcome)
      requires Valid() && p !in freequeue
      modifies this`mem, this`freequeue, physMem, shmMem, pagusrTable
      ensures Valid()
      ensures (mem, r) == AddressSpaces.Fork(old(mem), p)
      ensures r == NoFrames ==> (physMem[..] == old(physMem[..]) <==> old(physMem[NUM_PAG_KERNEL]) != FREE_FRAME)
    {
      if |freequeue| == 0 {
        return NoSlot;
      }
      var c := TakeFreeSlot();
      ghost var s := mem;
      var pag := AllocateData(c);
      if pag < NUM_PAG_DATA {
        DeallocateData(c, pag, s);
        ReturnFreeSlot(c);
        return NoFrames;
      }
      SharingStart(s, p, c);
      ShareCode(p, c, s);
      ShareData(p, c, s);
      ShareRegions(p, c, s);
      SharingEnd(s, p, c);
      return Child(c);
    }
  }
}
