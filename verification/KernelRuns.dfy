/** The in-place kernel, driven by any sequence of events, follows the runs of the model; so
    the processes on it cannot tell copy-on-write from eager copy. */
module KernelRuns {
  import opened Common
  import opened Paging
  import opened AddressSpaces
  import opened CowInvariant
  import opened FaultProof
  import opened EagerRefinement
  import opened BootImage
  import opened KernelMemory
  import Boot

  method ExecuteFork(k: Kernel, p: Slot) returns (a: Answer)
    requires k.Valid() && Inv(k.mem) && Live(k.mem, p)
    modifies k`mem, k`freequeue, k.physMem, k.shmMem, k.pagusrTable
    ensures k.Valid() && (k.mem, a) == Step(old(k.mem), DoFork(p))
  {
    var child := k.Fork(p);
    a := Forked(child);
  }

  method ExecuteWrite(k: Kernel, p: Slot, page: nat, off: nat, b: Byte) returns (a: Answer)
    requires k.Valid() && Inv(k.mem) && Live(k.mem, p)
    modifies k`mem, k.physMem, k.ram, k.pagusrTable
    ensures k.Valid() && (k.mem, a) == Step(old(k.mem), DoWrite(p, page, off, b))
  {
    WriteStep(k.mem, p, page, off, b);
    if PAG_LOG_INIT_CODE <= page < TOTAL_PAGES && off < PAGE_SIZE {
      assert k.pagusrTable[p][..][page] == k.mem.pt[p][page];
      if k.pagusrTable[p][page].present && k.pagusrTable[p][page].user {
        k.UserWrite(p, page, off, b);
        return Written;
      }
    }
    a := Ignored;
  }

  method ExecuteAttach(k: Kernel, p: Slot, id: int, page: nat) returns (a: Answer)
    requires k.Valid() && Inv(k.mem) && Live(k.mem, p)
    modifies k`mem, k.shmMem, k.pagusrTable
    ensures k.Valid() && (k.mem, a) == Step(old(k.mem), DoAttach(p, id, page))
  {
    AttachStep(k.mem, p, id, page);
    PageAddress(page);
    if page < TOTAL_PAGES {
      var r := k.Shmat(p, id, page * PAGE_SIZE);
      a := AttachedAt(ResultOutcome(id, r));
    } else {
      a := Ignored;
    }
  }

  /** One event on the kernel; an event of a dead process or on an unmapped page is ignored. */
  method Execute(k: Kernel, e: Event) returns (a: Answer)
    requires k.Valid() && Inv(k.mem)
    modifies k`mem, k`freequeue, k.physMem, k.ram, k.shmMem, k.pagusrTable
    ensures k.Valid() && (k.mem, a) == Step(old(k.mem), e)
  {
    if e.p < 1 || e.p in k.freequeue {
      return Ignored;
    }
    match e
    case DoFork(p) => a := ExecuteFork(k, p);
    case DoWrite(p, page, off, b) => a := ExecuteWrite(k, p, page, off, b);
    case DoAttach(p, id, page) => a := ExecuteAttach(k, p, id, page);
  }

  lemma WriteStep(s: State, p: Slot, page: nat, off: nat, b: Byte)
    requires Inv(s) && Live(s, p)
    ensures if UserPage(s, p, page) && off < PAGE_SIZE
      then WriteReady(s, p, page) && Step(s, DoWrite(p, page, off, b)) == (Write(s, p, page, off, b), Written)
      else Step(s, DoWrite(p, page, off, b)) == (s, Ignored)
  {
    if UserPage(s, p, page) && off < PAGE_SIZE {
      WriteKeepsInv(s, p, page, off, b);
    }
  }

  /** What the result of sys_shmat tells its caller. */
  function ResultOutcome(id: int, r: int): AttachOutcome {
    if r >= 0 then At(r / PAGE_SIZE) else if 0 <= id < NUM_REGIONS then NoPage else BadRegion
  }

  lemma PageAddress(page: nat)
    ensures page * PAGE_SIZE % PAGE_SIZE == 0 && page * PAGE_SIZE / PAGE_SIZE == page
  {
  }

  lemma AttachStep(s: State, p: Slot, id: int, page: nat)
    requires Inv(s) && Live(s, p)
    ensures if page < TOTAL_PAGES
      then var (s', outcome) := Attach(s, p, id, page);
        Step(s, DoAttach(p, id, page)) == (s', AttachedAt(outcome)) && ResultOutcome(id, Kernel.ShmatResult(outcome)) == outcome
      else Step(s, DoAttach(p, id, page)) == (s, Ignored)
  {
  }

  method ExecuteAll(k: Kernel, evs: seq<Event>) returns (answers: seq<Answer>)
    requires k.Valid() && Inv(k.mem)
    modifies k`mem, k`freequeue, k.physMem, k.ram, k.shmMem, k.pagusrTable
    ensures k.Valid() && Inv(k.mem) && (k.mem, answers) == Run(old(k.mem), evs)
  {
    answers := [];
    var i := 0;
    assert evs[..0] == [];
    while i < |evs|
      invariant i <= |evs| && k.Valid() && Inv(k.mem)
      invariant (k.mem, answers) == Run(old(k.mem), evs[..i])
    {
      RunSnoc(old(k.mem), evs, i);
      var a := Execute(k, evs[i]);
      answers := answers + [a];
      i := i + 1;
    }
    assert evs[..|evs|] == evs;
  }

  lemma RunSnoc(s: State, evs: seq<Event>, i: nat)
    requires Inv(s) && i < |evs|
    ensures var before := Run(s, evs[..i]);
      var after := Step(before.0, evs[i]);
      Run(s, evs[..i + 1]) == (after.0, before.1 + [after.1])
  {
    assert evs[..i + 1][..i] == evs[..i];
  }

  /** Boot, run any events, read: the answers and the byte are those of the eager semantics. */
  method BootRunRead(g: Guards, loaded: seq<Byte>, evs: seq<Event>, p: Slot, page: nat, off: nat) returns (answers: seq<Answer>, seen: Observation)
    requires 0 <= g.low < TOTAL_PAGES && 0 <= g.high < TOTAL_PAGES && |loaded| == TOTAL_PAGES * PAGE_SIZE
    ensures var eager := Boot.EagerReached(g, PagesOf(loaded), evs);
      answers == eager.1 && seen == EagerRead(eager.0, p, page, off)
  {
    var k := new Kernel.Static(loaded);
    ghost var ram := PagesOf(loaded);
    k.Boot(g);
    Boot.BootInv(g, ram);
    answers := ExecuteAll(k, evs);
    seen := UserRead(k, p, page, off);
    Boot.CopyOnWriteIsEagerCopy(g, ram, evs);
  }

  /** A load of a user program from its code, data or shared pages. */
  method UserRead(k: Kernel, p: Slot, page: nat, off: nat) returns (seen: Observation)
    requires k.Valid()
    ensures seen == Read(k.mem, p, page, off)
  {
    if p < 1 || p in k.freequeue || page < PAG_LOG_INIT_CODE || page >= TOTAL_PAGES || off >= PAGE_SIZE {
      return EagerRefinement.Unmapped;
    }
    assert k.pagusrTable[p][..][page] == k.mem.pt[p][page];
    if !(k.pagusrTable[p][page].present && k.pagusrTable[p][page].user) {
      return EagerRefinement.Unmapped;
    }
    var f := k.GetFrame(p, page);
    assert k.mem.ram[f][off] == k.ram[..][f * PAGE_SIZE + off];
    return Value(k.ram[f * PAGE_SIZE + off]);
  }
}
