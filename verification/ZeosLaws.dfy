/** What the joint machine does, told by what its tasks get back. */
module ZeosLaws {
  import opened Common
  import opened Paging
  import opened EagerRefinement
  import opened FaultProof
  import opened Zeos
  import AddressSpaces
  import BootImage
  import ForkProof
  import MemoryLaws
  import Scheduling
  import SchedulingLaws

  // ---- the scheduler half ----------------------------------------------

  /** The scheduler's part of the actions, in order. */
  function Projected(todo: seq<Action>): seq<Scheduling.Event> {
    if todo == [] then []
    else
      var rest, a := Projected(todo[..|todo| - 1]), todo[|todo| - 1];
      match a
      case Tick(t) => rest + [Scheduling.OnTick(t)]
      case Yield(t) => rest + [Scheduling.OnYield(t)]
      case Enter(t) => rest + [Scheduling.OnEnter(t)]
      case Leave(t) => rest + [Scheduling.OnLeave(t)]
      case Fork(t) => rest + [Scheduling.OnFork(true, t)]
      case _ => rest
  }

  lemma ActSchedules(m: Machine, a: Action)
    requires Joined(m)
    ensures Act(m, a).0.sched == match a
      case Tick(t) => Scheduling.Step(m.sched, Scheduling.OnTick(t))
      case Yield(t) => Scheduling.Step(m.sched, Scheduling.OnYield(t))
      case Enter(t) => Scheduling.Step(m.sched, Scheduling.OnEnter(t))
      case Leave(t) => Scheduling.Step(m.sched, Scheduling.OnLeave(t))
      case Fork(t) => Scheduling.Step(m.sched, Scheduling.OnFork(true, t))
      case _ => m.sched
  {
    if a.Fork? && m.sched.running != Scheduling.IDLE {
      OutcomeOf(m);
    }
  }

  lemma OutcomeOf(m: Machine)
    requires Joined(m) && m.sched.running != Scheduling.IDLE
    ensures AddressSpaces.Live(m.mem, m.sched.running)
    ensures AddressSpaces.Fork(m.mem, m.sched.running).1.Child? <==> m.sched.free != []
  {
    RunningIsLive(m);
    ForkProof.ForkKeepsInv(m.mem, m.sched.running);
  }

  /** So every law of the scheduler holds of the machine: waiting, ticks, PIDs. */
  lemma {:induction false} SchedulerIsProjected(m: Machine, todo: seq<Action>)
    requires Joined(m)
    ensures Acts(m, todo).0.sched == Scheduling.Steps(m.sched, Projected(todo))
    decreases |todo|
  {
    if todo != [] {
      var rest := todo[..|todo| - 1];
      SchedulerIsProjected(m, rest);
      ActSchedules(Acts(m, rest).0, todo[|todo| - 1]);
      StepsOne(m.sched, Projected(rest), Projected(todo));
    }
  }

  lemma StepsOne(s: Scheduling.Sched, rest: seq<Scheduling.Event>, all: seq<Scheduling.Event>)
    requires all == rest || (all != [] && all[..|all| - 1] == rest)
    ensures all != rest ==> Scheduling.Steps(s, all) == Scheduling.Step(Scheduling.Steps(s, rest), all[|all| - 1])
  {
  }

  // ---- the numbers that fork returns -----------------------------------

  /** The results that are PIDs. */
  function Pids(results: seq<Result>): nat {
    if results == [] then 0
    else Pids(results[..|results| - 1]) + if results[|results| - 1].Number? && results[|results| - 1].n > 0 then 1 else 0
  }

  lemma ActCountsPids(m: Machine, a: Action)
    requires Joined(m)
    ensures var (m', r) := Act(m, a);
      m'.sched.lastPid == m.sched.lastPid + if r.Number? && r.n > 0 then 1 else 0
  {
    ActSchedules(m, a);
    var e := match a
      case Tick(t) => Scheduling.OnTick(t)
      case Yield(t) => Scheduling.OnYield(t)
      case Enter(t) => Scheduling.OnEnter(t)
      case Leave(t) => Scheduling.OnLeave(t)
      case Fork(t) => Scheduling.OnFork(true, t)
      case _ => Scheduling.OnFork(false, Scheduling.Clock(0, 0, 0));
    SchedulingLaws.StepCountsForks(m.sched, e);
    if a.Fork? {
      ForkResult(m, a.t);
    }
  }

  lemma {:induction false} PidsCounted(m: Machine, todo: seq<Action>)
    requires Joined(m)
    ensures Acts(m, todo).0.sched.lastPid == m.sched.lastPid + Pids(Acts(m, todo).1)
    decreases |todo|
  {
    if todo != [] {
      var rest := todo[..|todo| - 1];
      PidsCounted(m, rest);
      ActCountsPids(Acts(m, rest).0, todo[|todo| - 1]);
      PidsSnoc(Acts(m, rest).1, Act(Acts(m, rest).0, todo[|todo| - 1]).1);
    }
  }

  lemma PidsSnoc(results: seq<Result>, r: Result)
    ensures Pids(results + [r]) == Pids(results) + if r.Number? && r.n > 0 then 1 else 0
  {
    assert (results + [r])[..|results|] == results;
  }

  lemma BootedPids(g: BootImage.Guards, ram: AddressSpaces.Ram, idleStart: Word, taskStart: Word, todo: seq<Action>)
    ensures var (m, results) := Booted(g, ram, idleStart, taskStart, todo); m.sched.lastPid == 1000 + Pids(results)
  {
    BootJoined(g, ram, idleStart, taskStart);
    PidsCounted(BootMachine(g, ram, idleStart, taskStart), todo);
  }

  /** From boot, the n-th fork that finds a slot returns 1000 + n, and that is the PID of the child, which has
      the first free slot. */
  lemma NthForkReturns(g: BootImage.Guards, ram: AddressSpaces.Ram, idleStart: Word, taskStart: Word, todo: seq<Action>, t: Scheduling.Clock)
    requires CanFork(Booted(g, ram, idleStart, taskStart, todo).0)
    ensures var (m, results) := Booted(g, ram, idleStart, taskStart, todo);
      && Act(m, Fork(t)).1 == Number(1001 + Pids(results))
      && Act(m, Fork(t)).0.sched.tasks[m.sched.free[0]].pid == 1001 + Pids(results)
  {
    BootedPids(g, ram, idleStart, taskStart, todo);
    ForkNumbers(Booted(g, ram, idleStart, taskStart, todo).0, t);
  }

  predicate CanFork(m: Machine) {
    m.sched.running != Scheduling.IDLE && m.sched.free != []
  }

  /** What a fork returns is the PID of its child. */
  lemma ForkNumbers(m: Machine, t: Scheduling.Clock)
    requires Joined(m) && CanFork(m)
    ensures Act(m, Fork(t)).1 == Number(m.sched.lastPid + 1)
    ensures Act(m, Fork(t)).0.sched.tasks[m.sched.free[0]].pid == m.sched.lastPid + 1
  {
    ForkResult(m, t);
    ActSchedules(m, Fork(t));
    SchedulingLaws.NewPid(m.sched, Scheduling.OnFork(true, t));
  }

  /** The child reads what its parent reads, on every page, and nobody else notices. */
  lemma ChildReads(m: Machine, t: Scheduling.Clock, q: Slot, page: nat, off: nat)
    requires Joined(m) && CanFork(m)
    ensures Read(Act(m, Fork(t)).0.mem, q, page, off) ==
      Read(m.mem, if q == m.sched.free[0] then m.sched.running else q, page, off)
  {
    ForkIsBoth(m, t);
    MemoryLaws.ForkShows(m.mem, m.sched.running, q, page, off);
  }

  lemma ForkIsBoth(m: Machine, t: Scheduling.Clock)
    requires Joined(m) && m.sched.running != Scheduling.IDLE
    ensures AddressSpaces.Live(m.mem, m.sched.running)
    ensures Act(m, Fork(t)).0.mem == Step(m.mem, DoFork(m.sched.running)).0
  {
    RunningIsLive(m);
  }

  /** The error codes, as numbers. */
  lemma FullForkReturns(m: Machine, t: Scheduling.Clock)
    requires Joined(m) && m.sched.running != Scheduling.IDLE && m.sched.free == []
    ensures Act(m, Fork(t)).1 == Number(-12)
  {
    ForkResult(m, t);
  }

  // ---- the memory half -------------------------------------------------

  /** Timer, yield, mode changes and loads change no memory, and a load tells what is there. */
  lemma OthersKeepMemory(m: Machine, a: Action)
    requires Joined(m) && !a.Fork? && !a.Store? && !a.Shmat?
    ensures Act(m, a).0.mem == m.mem
    ensures a.Load? && m.sched.running != Scheduling.IDLE ==>
      Act(m, a) == (m, Seen(Read(m.mem, m.sched.running, a.page, a.off)))
  {
  }

  /** What the running task stores it loads again. */
  lemma StoreThenLoad(m: Machine, page: nat, off: nat, b: Byte)
    requires Joined(m) && m.sched.running != Scheduling.IDLE
    requires AddressSpaces.UserPage(m.mem, m.sched.running, page) && off < PAGE_SIZE
    ensures Act(Act(m, Store(page, off, b)).0, Load(page, off)).1 == Seen(Value(b))
  {
    RunningIsLive(m);
    MemoryLaws.WriteShows(m.mem, m.sched.running, page, off, b, m.sched.running, page, off);
    OthersKeepMemory(Act(m, Store(page, off, b)).0, Load(page, off));
    ActSchedules(m, Store(page, off, b));
  }

  /** Each action of the running task is the memory event of the same name. */
  lemma CallsReachMemory(m: Machine, a: Action)
    requires Joined(m) && m.sched.running != Scheduling.IDLE && (a.Store? || a.Shmat?)
    ensures var p := m.sched.running;
      var (s, answer) := Step(m.mem, if a.Store? then DoWrite(p, a.page, a.off, a.b) else DoAttach(p, a.id, a.page));
      Act(m, a) == (m.(mem := s), Told(answer))
  {
  }
}
