/** The kernel as a whole: the running task forks, reads, writes and attaches, the scheduler
    decides who runs, and both work on the same task slots. */
module Zeos {
  import opened Common
  import opened Paging
  import opened CowInvariant
  import opened ForkProof
  import opened FaultProof
  import opened EagerRefinement
  import BootImage
  import Boot
  import AddressSpaces
  import Scheduling
  import opened KernelMemory
  import opened KernelRuns
  import opened RoundRobin

  datatype Action =
    | Tick(t: Scheduling.Clock)
    | Yield(t: Scheduling.Clock)
    | Enter(t: Scheduling.Clock)
    | Leave(t: Scheduling.Clock)
    | Fork(t: Scheduling.Clock)
    | Store(page: nat, off: nat, b: Byte)
    | Load(page: nat, off: nat)
    | Shmat(id: int, page: nat)

  /** What the running task gets back. */
  datatype Result = Quiet | Number(n: int) | Seen(o: Observation) | Told(a: Answer)

  /** Actions that only the scheduler sees. */
  function SchedEvent(a: Action): Scheduling.Event
    requires a.Tick? || a.Yield? || a.Enter? || a.Leave?
  {
    match a
    case Tick(t) => Scheduling.OnTick(t)
    case Yield(t) => Scheduling.OnYield(t)
    case Enter(t) => Scheduling.OnEnter(t)
    case Leave(t) => Scheduling.OnLeave(t)
  }

  /** The result of sys_fork; `pid` is the next one. */
  function ForkNumber(outcome: AddressSpaces.ForkOutcome, pid: int): int {
    match outcome
    case NoSlot => -ENOMEM
    case NoFrames => -EAGAIN
    case Child(_) => pid
  }

  // ---- the machine -----------------------------------------------------

  datatype Machine = Machine(mem: AddressSpaces.State, sched: Scheduling.Sched)

  /** There is one free queue. */
  ghost predicate Joined(m: Machine) {
    Inv(m.mem) && Scheduling.SchedOk(m.sched) && m.mem.free == m.sched.free
  }

  lemma RunningIsLive(m: Machine)
    requires Joined(m) && m.sched.running != Scheduling.IDLE
    ensures AddressSpaces.Live(m.mem, m.sched.running)
  {
  }

  lemma FreeKept(s: Scheduling.Sched, a: Action)
    requires a.Tick? || a.Yield? || a.Enter? || a.Leave?
    ensures Scheduling.Step(s, SchedEvent(a)).free == s.free
  {
    match a
    case Tick(t) => Scheduling.DispatchShape(Scheduling.Requeue(s.(rq := 0), t.first), t);
    case Yield(t) => Scheduling.DispatchShape(Scheduling.Requeue(s, t.first), t);
    case Enter(_) =>
    case Leave(_) =>
  }

  lemma ForkMem(m: Machine)
    requires Joined(m) && m.sched.running != Scheduling.IDLE
    ensures var (mem, outcome) := AddressSpaces.Fork(m.mem, m.sched.running);
      && Inv(mem) && mem.free == (if m.sched.free == [] then [] else m.sched.free[1..])
      && outcome == if m.sched.free == [] then AddressSpaces.NoSlot else AddressSpaces.Child(m.sched.free[0])
  {
    RunningIsLive(m);
    ForkKeepsInv(m.mem, m.sched.running);
    PoolSuffices(m.mem);
  }

  lemma ForkSched(m: Machine, t: Scheduling.Clock)
    requires Joined(m) && m.sched.running != Scheduling.IDLE
    ensures var sched := Scheduling.Fork(m.sched, m.sched.free != [], t);
      && Scheduling.SchedOk(sched) && sched.free == (if m.sched.free == [] then [] else m.sched.free[1..])
      && (m.sched.free != [] ==> sched.tasks[m.sched.free[0]].pid == m.sched.lastPid + 1)
  {
    Scheduling.ForkOk(m.sched, m.sched.free != [], t);
  }

  lemma ForkJoined(m: Machine, t: Scheduling.Clock)
    requires Joined(m) && m.sched.running != Scheduling.IDLE
    ensures var (mem, outcome) := AddressSpaces.Fork(m.mem, m.sched.running);
      var sched := Scheduling.Fork(m.sched, outcome.Child?, t);
      && Joined(Machine(mem, sched))
      && ForkNumber(outcome, m.sched.lastPid + 1) == (if m.sched.free == [] then -ENOMEM else m.sched.lastPid + 1)
      && ForkNumber(outcome, m.sched.lastPid + 1) == (if m.sched.free == [] then -12 else sched.tasks[m.sched.free[0]].pid)
  {
    ForkMem(m);
    ForkSched(m, t);
  }

  /** The memory half of a fork decides for the scheduler half. */
  ghost function ForkBoth(m: Machine, t: Scheduling.Clock): (r: (Machine, Result))
    requires Joined(m) && m.sched.running != Scheduling.IDLE
    ensures Joined(r.0)
    ensures r.1 == Number(if m.sched.free == [] then -ENOMEM else m.sched.lastPid + 1)
    ensures r.1 == Number(if m.sched.free == [] then -12 else r.0.sched.tasks[m.sched.free[0]].pid)
  {
    ForkJoined(m, t);
    var (mem, outcome) := AddressSpaces.Fork(m.mem, m.sched.running);
    (Machine(mem, Scheduling.Fork(m.sched, outcome.Child?, t)), Number(ForkNumber(outcome, m.sched.lastPid + 1)))
  }

  ghost function InMemory(m: Machine, e: Event): (r: (Machine, Result))
    requires Joined(m) && !e.DoFork?
    ensures Joined(r.0)
  {
    FreeStays(m.mem, e);
    var (mem, a) := Step(m.mem, e);
    (m.(mem := mem), Told(a))
  }

  lemma FreeStays(s: AddressSpaces.State, e: Event)
    requires Inv(s) && !e.DoFork?
    ensures Step(s, e).0.free == s.free
  {
    if Enabled(s, e) && e.DoWrite? {
      WriteKeepsInv(s, e.p, e.page, e.off, e.b);
      WriteFree(s, e.p, e.page, e.off, e.b);
    }
  }

  lemma WriteFree(s: AddressSpaces.State, p: Slot, page: nat, off: nat, b: Byte)
    requires off < PAGE_SIZE && AddressSpaces.WriteReady(s, p, page)
    ensures AddressSpaces.Write(s, p, page, off, b).free == s.free
  {
  }

  ghost function Act(m: Machine, a: Action): (r: (Machine, Result))
    requires Joined(m)
    ensures Joined(r.0)
  {
    var p := m.sched.running;
    if a.Tick? || a.Yield? || a.Enter? || a.Leave? then
      FreeKept(m.sched, a);
      Scheduling.StepOk(m.sched, SchedEvent(a));
      (m.(sched := Scheduling.Step(m.sched, SchedEvent(a))), Quiet)
    else if p == Scheduling.IDLE then (m, Quiet)
    else match a
      case Fork(t) => ForkBoth(m, t)
      case Store(page, off, b) => InMemory(m, DoWrite(p, page, off, b))
      case Load(page, off) => (m, Seen(Read(m.mem, p, page, off)))
      case Shmat(id, page) => InMemory(m, DoAttach(p, id, page))
  }

  ghost function Acts(m: Machine, todo: seq<Action>): (r: (Machine, seq<Result>))
    requires Joined(m)
    ensures Joined(r.0) && |r.1| == |todo|
    decreases |todo|
  {
    if todo == [] then (m, [])
    else
      var before := Acts(m, todo[..|todo| - 1]);
      var after := Act(before.0, todo[|todo| - 1]);
      (after.0, before.1 + [after.1])
  }

  // ---- the eager machine -----------------------------------------------

  /** The same scheduler over a memory in which every fork copies. */
  datatype EagerMachine = EagerMachine(mem: Eager, sched: Scheduling.Sched)

  function EagerAct(m: EagerMachine, a: Action): (r: (EagerMachine, Result))
    requires EagerShape(m.mem)
    ensures EagerShape(r.0.mem)
  {
    var p := m.sched.running;
    if a.Tick? || a.Yield? || a.Enter? || a.Leave? then (m.(sched := Scheduling.Step(m.sched, SchedEvent(a))), Quiet)
    else if p == Scheduling.IDLE then (m, Quiet)
    else match a
      case Fork(t) =>
        var (mem, outcome) := EagerFork(m.mem, p);
        (EagerMachine(mem, Scheduling.Fork(m.sched, true, t)), Number(ForkNumber(outcome, m.sched.lastPid + 1)))
      case Store(page, off, b) =>
        var (mem, answer) := EagerStep(m.mem, DoWrite(p, page, off, b));
        (m.(mem := mem), Told(answer))
      case Load(page, off) => (m, Seen(EagerRead(m.mem, p, page, off)))
      case Shmat(id, page) =>
        var (mem, answer) := EagerStep(m.mem, DoAttach(p, id, page));
        (m.(mem := mem), Told(answer))
  }

  function EagerActs(m: EagerMachine, todo: seq<Action>): (r: (EagerMachine, seq<Result>))
    requires EagerShape(m.mem)
    ensures EagerShape(r.0.mem) && |r.1| == |todo|
    decreases |todo|
  {
    if todo == [] then (m, [])
    else
      var before := EagerActs(m, todo[..|todo| - 1]);
      var after := EagerAct(before.0, todo[|todo| - 1]);
      (after.0, before.1 + [after.1])
  }

  ghost predicate Alike(m: Machine, e: EagerMachine) {
    m.sched == e.sched && Rel(m.mem, e.mem)
  }

  lemma ForkAlike(m: Machine, e: EagerMachine, t: Scheduling.Clock)
    requires Joined(m) && Alike(m, e) && m.sched.running != Scheduling.IDLE
    ensures Alike(ForkBoth(m, t).0, EagerAct(e, Fork(t)).0) && ForkBoth(m, t).1 == EagerAct(e, Fork(t)).1
  {
    RunningIsLive(m);
    ForkKeepsInv(m.mem, m.sched.running);
    ForkRel(m.mem, e.mem, m.sched.running);
  }

  lemma ActAlike(m: Machine, e: EagerMachine, a: Action)
    requires Joined(m) && Alike(m, e)
    ensures Alike(Act(m, a).0, EagerAct(e, a).0) && Act(m, a).1 == EagerAct(e, a).1
  {
    var p := m.sched.running;
    if p != Scheduling.IDLE {
      match a
      case Fork(t) => ForkAlike(m, e, t);
      case Store(page, off, b) => StepRel(m.mem, e.mem, DoWrite(p, page, off, b));
      case Load(page, off) => ReadRel(m.mem, e.mem, p, page, off);
      case Shmat(id, page) => StepRel(m.mem, e.mem, DoAttach(p, id, page));
      case _ =>
    }
  }

  lemma {:induction false} ActsAlike(m: Machine, e: EagerMachine, todo: seq<Action>)
    requires Joined(m) && Alike(m, e)
    ensures Alike(Acts(m, todo).0, EagerActs(e, todo).0) && Acts(m, todo).1 == EagerActs(e, todo).1
    decreases |todo|
  {
    if todo != [] {
      var rest := todo[..|todo| - 1];
      ActsAlike(m, e, rest);
      ActAlike(Acts(m, rest).0, EagerActs(e, rest).0, todo[|todo| - 1]);
    }
  }

  // ---- from boot -------------------------------------------------------

  function BootMachine(g: BootImage.Guards, ram: AddressSpaces.Ram, idleStart: Word, taskStart: Word): Machine {
    Machine(BootImage.BootState(g, ram), Scheduling.BootSched(idleStart, taskStart))
  }

  ghost function EagerBootMachine(g: BootImage.Guards, ram: AddressSpaces.Ram, idleStart: Word, taskStart: Word): EagerMachine {
    EagerMachine(Boot.EagerBoot(g, ram), Scheduling.BootSched(idleStart, taskStart))
  }

  lemma BootJoined(g: BootImage.Guards, ram: AddressSpaces.Ram, idleStart: Word, taskStart: Word)
    ensures Joined(BootMachine(g, ram, idleStart, taskStart))
    ensures Alike(BootMachine(g, ram, idleStart, taskStart), EagerBootMachine(g, ram, idleStart, taskStart))
  {
    Boot.BootInv(g, ram);
    Boot.BootRel(g, ram);
    Scheduling.BootOk(idleStart, taskStart);
  }

  ghost function Booted(g: BootImage.Guards, ram: AddressSpaces.Ram, idleStart: Word, taskStart: Word, todo: seq<Action>): (r: (Machine, seq<Result>))
    ensures Joined(r.0) && |r.1| == |todo|
  {
    BootJoined(g, ram, idleStart, taskStart);
    Acts(BootMachine(g, ram, idleStart, taskStart), todo)
  }

  /** Over any ticks, switches and calls from boot, everything the tasks are told and all that they read,
      in the order in which the scheduler runs them, is what eager copy would give. */
  lemma ZeosIsEager(g: BootImage.Guards, ram: AddressSpaces.Ram, idleStart: Word, taskStart: Word, todo: seq<Action>)
    ensures Booted(g, ram, idleStart, taskStart, todo).1 == EagerActs(EagerBootMachine(g, ram, idleStart, taskStart), todo).1
    ensures Booted(g, ram, idleStart, taskStart, todo).0.sched == EagerActs(EagerBootMachine(g, ram, idleStart, taskStart), todo).0.sched
  {
    BootJoined(g, ram, idleStart, taskStart);
    ActsAlike(BootMachine(g, ram, idleStart, taskStart), EagerBootMachine(g, ram, idleStart, taskStart), todo);
  }

  /** In every reachable state a fork of the running task returns -ENOMEM when no slot is free and
      else the next PID; so until a task exits no fork returns -EAGAIN. */
  lemma ForksSucceed(g: BootImage.Guards, ram: AddressSpaces.Ram, idleStart: Word, taskStart: Word, todo: seq<Action>, t: Scheduling.Clock)
    ensures var m := Booted(g, ram, idleStart, taskStart, todo).0;
      && Act(m, Fork(t)).1 != Number(-EAGAIN)
      && (m.sched.running != Scheduling.IDLE ==> Act(m, Fork(t)).1 == Number(if m.sched.free == [] then -ENOMEM else m.sched.lastPid + 1))
  {
    ForkResult(Booted(g, ram, idleStart, taskStart, todo).0, t);
  }

  lemma ForkResult(m: Machine, t: Scheduling.Clock)
    requires Joined(m)
    ensures Act(m, Fork(t)).1 != Number(-EAGAIN)
    ensures m.sched.running != Scheduling.IDLE ==> Act(m, Fork(t)).1 == Number(if m.sched.free == [] then -ENOMEM else m.sched.lastPid + 1)
  {
    assert m.sched.lastPid >= Scheduling.FIRST_PID;
  }

  // ---- in place --------------------------------------------------------

  /** The result of sys_fork from the outcome of the memory half. */
  lemma NumberIs(m: Machine, r: int)
    requires Joined(m) && m.sched.running != Scheduling.IDLE
    requires var ok := AddressSpaces.Fork(m.mem, m.sched.running).1.Child?;
      r == if m.sched.free == [] then -ENOMEM else if !ok then -EAGAIN else m.sched.lastPid + 1
    ensures r == ForkNumber(AddressSpaces.Fork(m.mem, m.sched.running).1, m.sched.lastPid + 1)
  {
    RunningIsLive(m);
    ForkKeepsInv(m.mem, m.sched.running);
  }

  /** The first i actions of `todo` lead from m to `now` with these results. */
  ghost predicate Reaches(m: Machine, todo: seq<Action>, i: nat, now: Machine, results: seq<Result>) {
    Joined(m) && i <= |todo| && (now, results) == Acts(m, todo[..i])
  }

  lemma ReachesStart(m: Machine, todo: seq<Action>)
    requires Joined(m)
    ensures Reaches(m, todo, 0, m, [])
  {
    assert todo[..0] == [];
  }

  lemma ReachesNext(m: Machine, todo: seq<Action>, i: nat, now: Machine, results: seq<Result>)
    requires Reaches(m, todo, i, now, results) && i < |todo|
    ensures Joined(now)
    ensures var (next, r) := Act(now, todo[i]); Reaches(m, todo, i + 1, next, results + [r])
  {
    assert todo[..i + 1][..i] == todo[..i];
  }

  lemma ReachesEnd(m: Machine, todo: seq<Action>, now: Machine, results: seq<Result>)
    requires Reaches(m, todo, |todo|, now, results)
    ensures (now, results) == Acts(m, todo)
  {
    assert todo[..|todo|] == todo;
  }

  /** The memory half of sys_fork and then the scheduler half. */
  lemma BothHalves(m: Machine, t: Scheduling.Clock, mem: AddressSpaces.State, outcome: AddressSpaces.ForkOutcome)
    requires Joined(m) && m.sched.running != Scheduling.IDLE
    requires (mem, outcome) == AddressSpaces.Fork(m.mem, m.sched.running)
    ensures ForkBoth(m, t) == (Machine(mem, Scheduling.Fork(m.sched, outcome.Child?, t)), Number(ForkNumber(outcome, m.sched.lastPid + 1)))
  {
  }

  method BootKernel(g: BootImage.Guards, loaded: seq<Byte>) returns (k: Kernel)
    requires 0 <= g.low < TOTAL_PAGES && 0 <= g.high < TOTAL_PAGES && |loaded| == TOTAL_PAGES * PAGE_SIZE
    ensures k.Valid() && k.mem == BootImage.BootState(g, PagesOf(loaded))
    ensures fresh(k) && fresh(k.physMem) && fresh(k.ram) && fresh(k.shmMem)
    ensures forall p :: 0 <= p < NR_TASKS ==> fresh(k.pagusrTable[p])
  {
    k := new Kernel.Static(loaded);
    k.Boot(g);
  }

  class Computer {
    const kernel: Kernel
    const scheduler: Scheduler

    /** The value of both parts. */
    ghost function Now(): Machine
      reads this, kernel, scheduler, scheduler.queues
    {
      Machine(kernel.mem, scheduler.State())
    }

    ghost predicate Valid()
      reads this, kernel, kernel.physMem, kernel.ram, kernel.shmMem, kernel.pagusrTable
      reads scheduler, scheduler.queues, scheduler.queues.lists, scheduler.queues.nodes
    {
      kernel.Valid() && scheduler.Valid()
    }

    constructor (k: Kernel, s: Scheduler)
      requires k.Valid() && s.Valid()
      ensures Valid() && kernel == k && scheduler == s
    {
      kernel, scheduler := k, s;
    }

    /** sys_fork: the frames first, then the queues. */
    method SysFork(t: Scheduling.Clock) returns (r: int, ghost outcome: AddressSpaces.ForkOutcome)
      requires Valid() && Scheduling.SchedOk(scheduler.State())
      requires scheduler.current != Scheduling.IDLE && AddressSpaces.Live(kernel.mem, scheduler.current)
      modifies kernel`mem, kernel`freequeue, kernel.physMem, kernel.shmMem, kernel.pagusrTable
      modifies scheduler, scheduler.queues, scheduler.queues.lists, scheduler.queues.nodes
      ensures Valid()
      ensures (kernel.mem, outcome) == AddressSpaces.Fork(old(kernel.mem), old(scheduler.current))
      ensures scheduler.State() == Scheduling.Fork(old(scheduler.State()), outcome.Child?, t)
      ensures r == if old(scheduler.State()).free == [] then -ENOMEM else if !outcome.Child? then -EAGAIN else old(scheduler.State()).lastPid + 1
      ensures outcome.Child? && old(scheduler.State()).free != [] ==> r == scheduler.task[old(scheduler.State()).free[0]].pid
    {
      var got := KernelFork(scheduler.current);
      outcome := got;
      r := ForkQueues(got.Child?, t);
    }

    method ForkQueues(ok: bool, t: Scheduling.Clock) returns (r: int)
      requires Valid() && Scheduling.SchedOk(scheduler.State()) && scheduler.current != Scheduling.IDLE
      modifies scheduler, scheduler.queues, scheduler.queues.lists, scheduler.queues.nodes
      ensures Valid() && kernel.mem == old(kernel.mem)
      ensures scheduler.State() == Scheduling.Fork(old(scheduler.State()), ok, t)
      ensures r == if old(scheduler.State()).free == [] then -ENOMEM else if !ok then -EAGAIN else old(scheduler.State()).lastPid + 1
      ensures ok && old(scheduler.State()).free != [] ==> r == scheduler.task[old(scheduler.State()).free[0]].pid
    {
      ghost var valid := kernel.Valid();
      r := scheduler.Fork(ok, t);
      assert kernel.Valid() == valid;
    }

    /** The kernel does not touch the scheduler. */
    method KernelFork(p: Slot) returns (outcome: AddressSpaces.ForkOutcome)
      requires kernel.Valid() && AddressSpaces.Live(kernel.mem, p)
      modifies kernel`mem, kernel`freequeue, kernel.physMem, kernel.shmMem, kernel.pagusrTable
      ensures kernel.Valid() && (kernel.mem, outcome) == AddressSpaces.Fork(old(kernel.mem), p)
      ensures scheduler.Valid() == old(scheduler.Valid()) && scheduler.State() == old(scheduler.State())
    {
      outcome := kernel.Fork(p);
    }

    method KernelExecute(e: Event) returns (r: Answer)
      requires kernel.Valid() && Inv(kernel.mem)
      modifies kernel`mem, kernel`freequeue, kernel.physMem, kernel.ram, kernel.shmMem, kernel.pagusrTable
      ensures kernel.Valid() && (kernel.mem, r) == Step(old(kernel.mem), e)
      ensures scheduler.Valid() == old(scheduler.Valid()) && scheduler.State() == old(scheduler.State())
    {
      r := Execute(kernel, e);
    }

    /** Timer, yield and changes of mode. */
    method Schedule(a: Action)
      requires Valid() && Scheduling.SchedOk(scheduler.State()) && (a.Tick? || a.Yield? || a.Enter? || a.Leave?)
      modifies scheduler, scheduler.queues, scheduler.queues.lists, scheduler.queues.nodes
      ensures Valid() && kernel.mem == old(kernel.mem)
      ensures scheduler.State() == Scheduling.Step(old(scheduler.State()), SchedEvent(a))
    {
      ghost var valid := kernel.Valid();
      scheduler.OneEvent(SchedEvent(a));
      assert kernel.Valid() == valid;
    }

    /** A store or an attach. */
    method UseMemory(e: Event) returns (r: Answer)
      requires Valid() && Inv(kernel.mem)
      modifies kernel`mem, kernel`freequeue, kernel.physMem, kernel.ram, kernel.shmMem, kernel.pagusrTable
      ensures Valid() && scheduler.State() == old(scheduler.State())
      ensures (kernel.mem, r) == Step(old(kernel.mem), e)
    {
      r := KernelExecute(e);
    }

    method CallFork(t: Scheduling.Clock) returns (r: Result)
      requires Valid() && Joined(Now()) && scheduler.current != Scheduling.IDLE
      modifies kernel`mem, kernel`freequeue, kernel.physMem, kernel.shmMem, kernel.pagusrTable
      modifies scheduler, scheduler.queues, scheduler.queues.lists, scheduler.queues.nodes
      ensures Valid() && (Now(), r) == ForkBoth(old(Now()), t)
    {
      ghost var m := Now();
      RunningIsLive(m);
      ghost var outcome;
      var n;
      n, outcome := SysFork(t);
      NumberIs(m, n);
      BothHalves(m, t, kernel.mem, outcome);
      r := Number(n);
    }

    /** A call or an access of the running task. */
    method Call(a: Action) returns (r: Result)
      requires Valid() && Joined(Now()) && scheduler.current != Scheduling.IDLE
      requires !(a.Tick? || a.Yield? || a.Enter? || a.Leave?)
      modifies kernel`mem, kernel`freequeue, kernel.physMem, kernel.ram, kernel.shmMem, kernel.pagusrTable
      modifies scheduler, scheduler.queues, scheduler.queues.lists, scheduler.queues.nodes
      ensures Valid() && (Now(), r) == Act(old(Now()), a)
    {
      var p := scheduler.current;
      match a {
        case Fork(t) =>
          r := CallFork(t);
        case Store(page, off, b) =>
          var told := UseMemory(DoWrite(p, page, off, b));
          r := Told(told);
        case Load(page, off) =>
          var seen := UserRead(kernel, p, page, off);
          r := Seen(seen);
        case Shmat(id, page) =>
          var told := UseMemory(DoAttach(p, id, page));
          r := Told(told);
      }
    }

    method Perform(a: Action) returns (r: Result)
      requires Valid() && Joined(Now())
      modifies kernel`mem, kernel`freequeue, kernel.physMem, kernel.ram, kernel.shmMem, kernel.pagusrTable
      modifies scheduler, scheduler.queues, scheduler.queues.lists, scheduler.queues.nodes
      ensures Valid() && (Now(), r) == Act(old(Now()), a)
    {
      r := Quiet;
      if a.Tick? || a.Yield? || a.Enter? || a.Leave? {
        Schedule(a);
      } else if scheduler.current != Scheduling.IDLE {
        r := Call(a);
      }
    }

    method PerformAll(todo: seq<Action>) returns (results: seq<Result>)
      requires Valid() && Joined(Now())
      modifies kernel`mem, kernel`freequeue, kernel.physMem, kernel.ram, kernel.shmMem, kernel.pagusrTable
      modifies scheduler, scheduler.queues, scheduler.queues.lists, scheduler.queues.nodes
      ensures Valid() && (Now(), results) == Acts(old(Now()), todo)
    {
      ghost var m := Now();
      results := [];
      var i := 0;
      ReachesStart(m, todo);
      while i < |todo|
        invariant i <= |todo| && Valid() && Reaches(m, todo, i, Now(), results)
      {
        ReachesNext(m, todo, i, Now(), results);
        var r := Perform(todo[i]);
        results := results + [r];
        i := i + 1;
      }
      ReachesEnd(m, todo, Now(), results);
    }
  }

  /** Boot the kernel in place and let the scheduled tasks act: the results are those of eager copy. */
  method BootAndPerform(g: BootImage.Guards, loaded: seq<Byte>, idleStart: Word, taskStart: Word, todo: seq<Action>)
    returns (results: seq<Result>)
    requires 0 <= g.low < TOTAL_PAGES && 0 <= g.high < TOTAL_PAGES && |loaded| == TOTAL_PAGES * PAGE_SIZE
    ensures results == EagerActs(EagerBootMachine(g, PagesOf(loaded), idleStart, taskStart), todo).1
  {
    var k := BootKernel(g, loaded);
    ghost var valid := k.Valid();
    var s := new Scheduler(idleStart, taskStart);
    assert k.Valid() == valid;
    var c := new Computer(k, s);
    BootJoined(g, PagesOf(loaded), idleStart, taskStart);
    ZeosIsEager(g, PagesOf(loaded), idleStart, taskStart, todo);
    results := c.PerformAll(todo);
  }
}
