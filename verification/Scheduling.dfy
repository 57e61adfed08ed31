/** The round-robin scheduler of sched.c as a value: queues of task slots, the running task,
    its remaining quantum, and the tick counters of every task. */
module Scheduling {
  import opened Common
  import opened Counting

  const DEFAULT_QUANTUM := 10
  const IDLE: Slot := 0
  const FIRST_PID := 1000

  datatype TaskState = Run | Ready | Blocked

  /** struct stats, without the counter only sys_get_stats fills. */
  datatype Stats = Stats(user: Word, system: Word, blocked: Word, ready: Word, elapsed: Word, trans: Word)
  datatype Counter = User | System | Waiting

  datatype Task = Task(pid: int, state: TaskState, quantum: int, stats: Stats)

  type Tasks = t: seq<Task> | |t| == NR_TASKS witness seq(NR_TASKS, _ => UNUSED)
  const ZERO_STATS := Stats(0, 0, 0, 0, 0, 0)
  const UNUSED := Task(-1, Run, 0, ZERO_STATS)

  datatype Sched = Sched(free: seq<Slot>, ready: seq<Slot>, running: Slot, rq: int, tasks: Tasks, lastPid: int)

  // ---- tick counters ---------------------------------------------------

  function Wrap(i: int): Word { i % TWO32 }

  /** update_stats at clock value `now`. */
  function Charge(st: Stats, c: Counter, now: Word): Stats {
    var gone := now - st.elapsed;
    match c
    case User => st.(user := Wrap(st.user + gone), elapsed := now)
    case System => st.(system := Wrap(st.system + gone), elapsed := now)
    case Waiting => st.(ready := Wrap(st.ready + gone), elapsed := now)
  }

  /** The clock value the counters add up from: elapsed minus all counted ticks. */
  function Origin(st: Stats): Word {
    Wrap(st.elapsed - st.user - st.system - st.blocked - st.ready)
  }

  lemma WrapMinus(a: int, b: int)
    ensures Wrap(a - Wrap(b)) == Wrap(a - b)
  {
    var k := b / TWO32;
    assert b == TWO32 * k + Wrap(b);
    WrapShift(a - b, k);
  }

  lemma WrapShift(a: int, k: int)
    ensures Wrap(a + TWO32 * k) == Wrap(a)
  {
  }

  /** Charging a counter, wrapped or not, moves no tick out of the account. */
  lemma ChargeKeepsOrigin(st: Stats, c: Counter, now: Word)
    ensures Origin(Charge(st, c, now)) == Origin(st)
  {
    var gone := now - st.elapsed;
    var others := now - st.user - st.system - st.blocked - st.ready;
    match c
    case User => WrapMinus(others + st.user, st.user + gone);
    case System => WrapMinus(others + st.system, st.system + gone);
    case Waiting => WrapMinus(others + st.ready, st.ready + gone);
  }

  function ChargeSlot(s: Sched, p: Slot, c: Counter, now: Word): Sched {
    s.(tasks := s.tasks[p := s.tasks[p].(stats := Charge(s.tasks[p].stats, c, now))])
  }

  function SetState(s: Sched, p: Slot, st: TaskState): Sched {
    s.(tasks := s.tasks[p := s.tasks[p].(state := st)])
  }

  // ---- the steps -------------------------------------------------------

  /** The clock as read by the successive update_stats calls of one step. */
  datatype Clock = Clock(first: Word, second: Word, third: Word)

  /** The running task gives up the processor. */
  function Stopped(s: Sched, now: Word): Sched {
    SetState(ChargeSlot(s, s.running, System, now), s.running, Ready)
  }

  /** update_process_state_rr of the running task towards the ready queue. */
  function Requeue(s: Sched, now: Word): Sched {
    Stopped(s.(ready := s.ready + [s.running]), now)
  }

  /** Queue q without slot p. */
  function Without(q: seq<Slot>, p: Slot): seq<Slot> {
    if p in q then q[..IndexOf(q, p)] + q[IndexOf(q, p) + 1..] else q
  }

  /** The second argument of update_process_state_rr: a null pointer or a queue. */
  datatype Destination = Nowhere | ToReady | ToFree

  /** A task that does not run leaves its queue. */
  function Detached(s: Sched, p: Slot): Sched {
    if s.tasks[p].state != Run then s.(free := Without(s.free, p), ready := Without(s.ready, p)) else s
  }

  function Placed(s: Sched, p: Slot, dst: Destination, now: Word): Sched {
    match dst
    case Nowhere => SetState(s, p, Run)
    case ToReady => SetState(ChargeSlot(s.(ready := s.ready + [p]), p, System, now), p, Ready)
    case ToFree => SetState(s.(free := s.free + [p]), p, Blocked)
  }

  /** update_process_state_rr of any task. */
  function Transferred(s: Sched, p: Slot, dst: Destination, now: Word): Sched {
    Placed(Detached(s, p), p, dst, now)
  }

  /** Its only use: the running task goes to the ready queue. */
  lemma RunningIsRequeued(s: Sched, now: Word)
    requires s.tasks[s.running].state == Run
    ensures Transferred(s, s.running, ToReady, now) == Requeue(s, now)
  {
  }

  lemma {:induction false} WithoutLacks(q: seq<Slot>, p: Slot)
    requires Distinct(q)
    ensures p !in Without(q, p)
    ensures forall r :: r in Without(q, p) <==> r in q && r != p
  {
    if p in q {
      var i := IndexOf(q, p);
      forall j | 0 <= j < |q| && j != i ensures q[j] != p && q[j] in Without(q, p) {
        assert Without(q, p)[if j < i then j else j - 1] == q[j];
      }
    }
  }

  /** The end of sched_next_rr, once task `next` is chosen, with the switch to it. */
  function SwitchTo(s: Sched, next: Slot, t: Clock): Sched {
    var a := SetState(s.(rq := s.tasks[next].quantum), next, Run);
    var b := ChargeSlot(ChargeSlot(a, s.running, System, t.second), next, Waiting, t.third);
    b.(running := next,
       tasks := b.tasks[next := b.tasks[next].(stats := b.tasks[next].stats.(trans := Wrap(b.tasks[next].stats.trans + 1)))])
  }

  /** The first ready task, or idle. */
  function Next(s: Sched): Slot {
    if s.ready == [] then IDLE else s.ready[0]
  }

  function Unqueued(s: Sched): Sched {
    if s.ready == [] then s else s.(ready := s.ready[1..])
  }

  /** sched_next_rr. */
  function Dispatch(s: Sched, t: Clock): Sched {
    SwitchTo(Unqueued(s), Next(s), t)
  }

  /** clock_routine. */
  function Tick(s: Sched, t: Clock): Sched {
    if s.rq == 1 && s.ready != [] then Dispatch(Requeue(s.(rq := 0), t.first), t)
    else if s.rq == 1 then s.(rq := s.tasks[s.running].quantum)
    else s.(rq := s.rq - 1)
  }

  /** sys_yield. */
  function Yield(s: Sched, t: Clock): Sched {
    Dispatch(Requeue(s, t.first), t)
  }

  /** sys_fork takes the first free slot and copies the parent's task structure to it. */
  function Copied(s: Sched): Sched
    requires s.free != []
  {
    s.(free := s.free[1..], tasks := s.tasks[s.free[0] := s.tasks[s.running]])
  }

  /** It gives child c a new PID and fresh statistics. */
  function Named(s: Sched, c: Slot, now: Word): Sched {
    s.(lastPid := s.lastPid + 1,
       tasks := s.tasks[c := s.tasks[c].(pid := s.lastPid + 1, state := Ready, stats := Stats(0, 0, 0, 0, now, 0))])
  }

  /** The queues and the task structure in sys_fork; `ok` says whether the frames sufficed. */
  function Fork(s: Sched, ok: bool, t: Clock): Sched {
    if s.free == [] then s
    else if !ok then Copied(s).(free := s.free[1..] + [s.free[0]])
    else
      var named := Named(Copied(s), s.free[0], t.first);
      named.(ready := named.ready + [s.free[0]])
  }

  /** The running task frees its slot. */
  function Leaves(s: Sched): Sched {
    s.(free := s.free + [s.running], tasks := s.tasks[s.running := s.tasks[s.running].(pid := -1)])
  }

  /** The queue part of sys_exit. */
  function Exit(s: Sched, t: Clock): Sched {
    Dispatch(Leaves(s), t)
  }

  datatype Event =
    | OnTick(t: Clock)
    | OnYield(t: Clock)
    | OnFork(ok: bool, t: Clock)
    | OnExit(t: Clock)
    | OnEnter(t: Clock)
    | OnLeave(t: Clock)

  /** The idle task makes no system call. */
  predicate Enabled(s: Sched, e: Event) {
    e.OnYield? || e.OnFork? || e.OnExit? ==> s.running != IDLE
  }

  function Step(s: Sched, e: Event): Sched {
    if !Enabled(s, e) then s
    else match e
      case OnTick(t) => Tick(s, t)
      case OnYield(t) => Yield(s, t)
      case OnFork(ok, t) => Fork(s, ok, t)
      case OnExit(t) => Exit(s, t)
      case OnEnter(t) => ChargeSlot(s, s.running, User, t.first)
      case OnLeave(t) => ChargeSlot(s, s.running, System, t.first)
  }

  function Steps(s: Sched, evs: seq<Event>): Sched
    decreases |evs|
  {
    if evs == [] then s else Step(Steps(s, evs[..|evs| - 1]), evs[|evs| - 1])
  }

  lemma StepsSnoc(s: Sched, evs: seq<Event>, i: nat)
    requires i < |evs|
    ensures Steps(s, evs[..i + 1]) == Step(Steps(s, evs[..i]), evs[i])
  {
    assert evs[..i + 1][..i] == evs[..i];
  }

  /** After init_sched, init_idle and init_task1. */
  function BootSched(idleStart: Word, taskStart: Word): Sched {
    Sched([2, 3, 4, 5, 6, 7, 8, 9], [], 1, DEFAULT_QUANTUM,
          [Task(0, Run, DEFAULT_QUANTUM, Stats(0, 0, 0, 0, idleStart, 0)),
           Task(1, Run, DEFAULT_QUANTUM, Stats(0, 0, 0, 0, taskStart, 0)),
           UNUSED, UNUSED, UNUSED, UNUSED, UNUSED, UNUSED, UNUSED, UNUSED],
          FIRST_PID)
  }

  /** After init_sched. */
  function EmptySched(): Sched {
    Sched([0, 1, 2, 3, 4, 5, 6, 7, 8, 9], [], IDLE, 0, seq(NR_TASKS, _ => UNUSED), FIRST_PID)
  }

  /** The task structures init_idle and init_task1 set up. */
  function IdleSet(s: Sched, c: Slot, now: Word): Sched {
    s.(tasks := s.tasks[c := s.tasks[c].(pid := 0, quantum := DEFAULT_QUANTUM, stats := Stats(0, 0, 0, 0, now, 0))])
  }

  function Task1Set(s: Sched, c: Slot, now: Word): Sched {
    s.(running := c, rq := DEFAULT_QUANTUM,
       tasks := s.tasks[c := s.tasks[c].(pid := 1, state := Run, quantum := DEFAULT_QUANTUM, stats := Stats(0, 0, 0, 0, now, 0))])
  }

  function InitIdle(s: Sched, now: Word): Sched
    requires s.free != []
  {
    IdleSet(s.(free := s.free[1..]), s.free[0], now)
  }

  function InitTask1(s: Sched, now: Word): Sched
    requires s.free != []
  {
    Task1Set(s.(free := s.free[1..]), s.free[0], now)
  }

  lemma BootIsInit(idleStart: Word, taskStart: Word)
    ensures InitIdle(EmptySched(), idleStart).free != []
    ensures InitTask1(InitIdle(EmptySched(), idleStart), taskStart) == BootSched(idleStart, taskStart)
  {
    var s := InitTask1(InitIdle(EmptySched(), idleStart), taskStart);
    var b := BootSched(idleStart, taskStart);
    assert s.free == b.free;
    forall p: Slot ensures s.tasks[p] == b.tasks[p] {
      assert p >= 2 ==> b.tasks[p] == UNUSED;
    }
    assert s.tasks == b.tasks;
  }

  // ---- the partition ---------------------------------------------------

  lemma TailIsDistinct(q: seq<Slot>)
    requires Distinct(q) && q != []
    ensures Distinct(q[1..]) && q[0] !in q[1..]
    ensures forall p :: p in q <==> p == q[0] || p in q[1..]
  {
    assert q == [q[0]] + q[1..];
  }

  lemma SnocIsDistinct(q: seq<Slot>, p: Slot)
    requires Distinct(q) && p !in q
    ensures Distinct(q + [p])
  {
  }

  predicate Live(s: Sched, p: Slot) { p !in s.free }

  /** Each slot is in one of the free queue, the ready queue, the running task and the idle
      task off duty; and when the idle task runs nobody is ready. */
  ghost predicate Partition(s: Sched) {
    && Distinct(s.free) && Distinct(s.ready)
    && (forall p :: p in s.free ==> p !in s.ready && p != s.running && p != IDLE)
    && (forall p :: p in s.ready ==> p != s.running && p != IDLE)
    && (forall p: Slot :: p in s.free || p in s.ready || p == s.running || p == IDLE)
    && (s.running == IDLE ==> s.ready == [])
  }

  ghost predicate StatesOk(s: Sched) {
    && s.tasks[s.running].state == Run
    && (forall p :: p in s.ready ==> s.tasks[p].state == Ready)
  }

  ghost predicate QuantaOk(s: Sched) {
    && (forall p: Slot :: Live(s, p) ==> s.tasks[p].quantum >= 1)
    && 1 <= s.rq <= s.tasks[s.running].quantum
  }

  ghost predicate PidsOk(s: Sched) {
    && s.lastPid >= FIRST_PID
    && (forall p: Slot :: Live(s, p) ==> 0 <= s.tasks[p].pid <= s.lastPid)
    && (forall p: Slot, q: Slot :: Live(s, p) && Live(s, q) && p != q ==> s.tasks[p].pid != s.tasks[q].pid)
  }

  ghost predicate SchedOk(s: Sched) {
    Partition(s) && StatesOk(s) && QuantaOk(s) && PidsOk(s)
  }

  lemma BootFree(p: Slot)
    ensures p in [2, 3, 4, 5, 6, 7, 8, 9] <==> p >= 2
  {
  }

  lemma BootOk(idleStart: Word, taskStart: Word)
    ensures SchedOk(BootSched(idleStart, taskStart))
  {
    BootPartition(idleStart, taskStart);
    BootPids(idleStart, taskStart);
    BootQuanta(idleStart, taskStart);
  }

  lemma BootPartition(idleStart: Word, taskStart: Word)
    ensures Partition(BootSched(idleStart, taskStart))
  {
    forall p: Slot ensures Live(BootSched(idleStart, taskStart), p) <==> p < 2 {
      BootFree(p);
    }
  }

  lemma BootPids(idleStart: Word, taskStart: Word)
    ensures PidsOk(BootSched(idleStart, taskStart))
  {
    forall p: Slot ensures Live(BootSched(idleStart, taskStart), p) <==> p < 2 {
      BootFree(p);
    }
  }

  /** What Dispatch needs: the running task was put in a queue, or freed. */
  ghost predicate BetweenTasks(s: Sched) {
    && Distinct(s.free) && Distinct(s.ready)
    && (forall p :: p in s.free ==> p !in s.ready && p != IDLE)
    && (forall p :: p in s.ready ==> p != IDLE && s.tasks[p].state == Ready)
    && (forall p: Slot :: p in s.free || p in s.ready || p == IDLE)
    && (forall p: Slot :: Live(s, p) ==> s.tasks[p].quantum >= 1)
    && PidsOk(s)
  }

  ghost predicate SameTasks(s: Sched, s': Sched) {
    s'.lastPid == s.lastPid && forall p: Slot :: s'.tasks[p].pid == s.tasks[p].pid && s'.tasks[p].quantum == s.tasks[p].quantum
  }

  lemma DispatchShape(s: Sched, t: Clock)
    ensures var s' := Dispatch(s, t);
      && s'.free == s.free && s'.running == Next(s) && s'.ready == Unqueued(s).ready
      && s'.rq == s.tasks[s'.running].quantum && SameTasks(s, s')
      && s'.tasks[s'.running].state == Run
      && (forall p: Slot :: p != s'.running ==> s'.tasks[p].state == s.tasks[p].state)
  {
  }

  lemma DispatchOk(s: Sched, t: Clock)
    requires BetweenTasks(s)
    ensures SchedOk(Dispatch(s, t))
  {
    DispatchShape(s, t);
    DispatchedOk(s, Dispatch(s, t));
  }

  lemma DispatchedOk(s: Sched, s': Sched)
    requires BetweenTasks(s) && SameTasks(s, s') && s'.free == s.free
    requires s'.running == Next(s) && s'.ready == Unqueued(s).ready
    requires s'.rq == s.tasks[s'.running].quantum && s'.tasks[s'.running].state == Run
    requires forall p: Slot :: p != s'.running ==> s'.tasks[p].state == s.tasks[p].state
    ensures SchedOk(s')
  {
    if s.ready != [] {
      TailIsDistinct(s.ready);
    }
  }

  lemma RequeueOk(s: Sched, now: Word)
    requires Partition(s) && StatesOk(s) && PidsOk(s) && s.running != IDLE
    requires forall p: Slot :: Live(s, p) ==> s.tasks[p].quantum >= 1
    ensures BetweenTasks(Requeue(s, now))
  {
    var s' := Requeue(s, now);
    assert forall p: Slot :: s'.tasks[p].pid == s.tasks[p].pid && s'.tasks[p].quantum == s.tasks[p].quantum;
  }

  lemma ForkFailedOk(s: Sched, t: Clock)
    requires SchedOk(s) && s.running != IDLE && s.free != []
    ensures SchedOk(Fork(s, false, t))
  {
    var c, s' := s.free[0], Fork(s, false, t);
    TailIsDistinct(s.free);
    SnocIsDistinct(s.free[1..], c);
    assert forall p :: p in s'.free <==> p in s.free;
    assert forall p: Slot :: p != c ==> s'.tasks[p] == s.tasks[p];
  }

  lemma ForkDoneOk(s: Sched, t: Clock)
    requires SchedOk(s) && s.running != IDLE && s.free != []
    ensures SchedOk(Fork(s, true, t))
  {
    var c, s' := s.free[0], Fork(s, true, t);
    TailIsDistinct(s.free);
    assert c in s.free;
    SnocIsDistinct(s.ready, c);
    ForkDonePartition(s, s', c);
    ForkDoneTasks(s, s', c);
  }

  /** Slot c goes from the free queue to the ready queue. */
  ghost predicate Promoted(s: Sched, s': Sched, c: Slot) {
    && (forall p :: p in s.free <==> p == c || p in s'.free) && c !in s'.free && Distinct(s'.free)
    && s'.ready == s.ready + [c] && Distinct(s'.ready)
    && s'.running == s.running && s'.rq == s.rq
    && (forall p: Slot :: p != c ==> s'.tasks[p] == s.tasks[p])
  }

  lemma ForkDonePartition(s: Sched, s': Sched, c: Slot)
    requires Partition(s) && s.running != IDLE && Promoted(s, s', c)
    ensures Partition(s')
  {
    assert forall p :: p in s'.ready <==> p in s.ready || p == c;
  }

  lemma ForkDoneTasks(s: Sched, s': Sched, c: Slot)
    requires Partition(s) && StatesOk(s) && QuantaOk(s) && PidsOk(s) && Promoted(s, s', c)
    requires s'.lastPid == s.lastPid + 1 && s'.tasks[c].pid == s'.lastPid && s'.tasks[c].state == Ready
    requires s'.tasks[c].quantum == s.tasks[s.running].quantum
    ensures StatesOk(s') && QuantaOk(s') && PidsOk(s')
  {
    assert forall p :: p in s'.ready <==> p in s.ready || p == c;
    assert forall p: Slot :: Live(s', p) <==> Live(s, p) || p == c;
  }

  lemma ForkOk(s: Sched, ok: bool, t: Clock)
    requires SchedOk(s) && s.running != IDLE
    ensures SchedOk(Fork(s, ok, t))
  {
    if s.free != [] {
      if ok {
        ForkDoneOk(s, t);
      } else {
        ForkFailedOk(s, t);
      }
    }
  }

  lemma ExitOk(s: Sched, t: Clock)
    requires SchedOk(s) && s.running != IDLE
    ensures SchedOk(Exit(s, t))
  {
    DispatchOk(Leaves(s), t);
  }

  lemma ChargeOk(s: Sched, p: Slot, c: Counter, now: Word)
    requires SchedOk(s)
    ensures SchedOk(ChargeSlot(s, p, c, now))
  {
    var s' := ChargeSlot(s, p, c, now);
    assert forall q: Slot :: s'.tasks[q].(stats := ZERO_STATS) == s.tasks[q].(stats := ZERO_STATS);
  }

  lemma TickOk(s: Sched, t: Clock)
    requires SchedOk(s)
    ensures SchedOk(Tick(s, t))
  {
    if s.rq == 1 && s.ready != [] {
      RequeueOk(s.(rq := 0), t.first);
      DispatchOk(Requeue(s.(rq := 0), t.first), t);
    }
  }

  lemma StepOk(s: Sched, e: Event)
    requires SchedOk(s)
    ensures SchedOk(Step(s, e))
  {
    if Enabled(s, e) {
      match e
      case OnTick(t) => TickOk(s, t);
      case OnYield(t) => RequeueOk(s, t.first); DispatchOk(Requeue(s, t.first), t);
      case OnFork(ok, t) => ForkOk(s, ok, t);
      case OnExit(t) => ExitOk(s, t);
      case OnEnter(t) => ChargeOk(s, s.running, User, t.first);
      case OnLeave(t) => ChargeOk(s, s.running, System, t.first);
    }
  }

  /** Every reachable state is well-partitioned. */
  lemma {:induction false} StepsOk(s: Sched, evs: seq<Event>)
    requires SchedOk(s)
    ensures SchedOk(Steps(s, evs))
    decreases |evs|
  {
    if evs != [] {
      StepsOk(s, evs[..|evs| - 1]);
      StepOk(Steps(s, evs[..|evs| - 1]), evs[|evs| - 1]);
    }
  }

  /** Once the idle task runs nothing else ever does, and the ready queue stays empty. */
  lemma {:induction false} IdleStaysIdle(s: Sched, evs: seq<Event>)
    requires SchedOk(s) && s.running == IDLE
    ensures Steps(s, evs).running == IDLE && Steps(s, evs).ready == []
    decreases |evs|
  {
    if evs != [] {
      IdleStaysIdle(s, evs[..|evs| - 1]);
    }
  }

  // ---- tick accounting over runs ---------------------------------------

  /** What a step does to the account of slot p: only a fork into p opens a new one. */
  lemma StepKeepsOrigin(s: Sched, e: Event, p: Slot)
    ensures (e.OnFork? && Enabled(s, e) && s.free != [] && p == s.free[0])
      || Origin(Step(s, e).tasks[p].stats) == Origin(s.tasks[p].stats)
    ensures e.OnFork? && Enabled(s, e) && s.free != [] && p == s.free[0] && e.ok ==>
      Origin(Step(s, e).tasks[p].stats) == e.t.first
  {
    if Enabled(s, e) {
      match e
      case OnTick(t) =>
        if s.rq == 1 && s.ready != [] {
          RequeueKeepsOrigin(s.(rq := 0), t.first, p);
          DispatchKeepsOrigin(Requeue(s.(rq := 0), t.first), t, p);
        }
      case OnYield(t) =>
        RequeueKeepsOrigin(s, t.first, p);
        DispatchKeepsOrigin(Requeue(s, t.first), t, p);
      case OnFork(ok, t) =>
      case OnExit(t) =>
        DispatchKeepsOrigin(Leaves(s), t, p);
      case OnEnter(t) => ChargeKeepsOrigin(s.tasks[s.running].stats, User, t.first);
      case OnLeave(t) => ChargeKeepsOrigin(s.tasks[s.running].stats, System, t.first);
    }
  }

  lemma RequeueKeepsOrigin(s: Sched, now: Word, p: Slot)
    ensures Origin(Requeue(s, now).tasks[p].stats) == Origin(s.tasks[p].stats)
  {
    ChargeKeepsOrigin(s.tasks[s.running].stats, System, now);
  }

  lemma DispatchKeepsOrigin(s: Sched, t: Clock, p: Slot)
    ensures Origin(Dispatch(s, t).tasks[p].stats) == Origin(s.tasks[p].stats)
  {
    SwitchKeepsOrigin(Unqueued(s), Next(s), t, p);
  }

  lemma SwitchKeepsOrigin(s: Sched, next: Slot, t: Clock, p: Slot)
    ensures Origin(SwitchTo(s, next, t).tasks[p].stats) == Origin(s.tasks[p].stats)
  {
    var a := SetState(s.(rq := s.tasks[next].quantum), next, Run);
    var b := ChargeSlot(a, s.running, System, t.second);
    ChargeKeepsOrigin(a.tasks[s.running].stats, System, t.second);
    ChargeKeepsOrigin(b.tasks[next].stats, Waiting, t.third);
  }

  /** The counted ticks of a task since clock value `start`. */
  ghost predicate Accounted(st: Stats, start: Word) {
    Wrap(st.user + st.system + st.blocked + st.ready) == Wrap(st.elapsed - start)
  }

  lemma OriginAccounts(st: Stats)
    ensures Accounted(st, Origin(st))
  {
    var sum := st.user + st.system + st.blocked + st.ready;
    assert st.elapsed - st.user - st.system - st.blocked - st.ready == st.elapsed - sum;
    WrapMinus(st.elapsed, st.elapsed - sum);
  }

  /** While slot p stays in use its account starts where it did. */
  lemma TicksAreConserved(s: Sched, evs: seq<Event>, p: Slot)
    requires forall n :: 0 <= n <= |evs| ==> Live(Steps(s, evs[..n]), p)
    ensures Accounted(Steps(s, evs).tasks[p].stats, Origin(s.tasks[p].stats))
  {
    OriginConstant(s, evs, p);
    OriginAccounts(Steps(s, evs).tasks[p].stats);
  }

  /** From the fork that creates it, as long as the child is in use: user + system + blocked + ready
      is the elapsed total less the clock at its init_stats, modulo 2^32. */
  lemma TicksSinceFork(s: Sched, t: Clock, evs: seq<Event>)
    requires SchedOk(s) && s.running != IDLE && s.free != []
    requires forall n :: 0 <= n <= |evs| ==> Live(Steps(Step(s, OnFork(true, t)), evs[..n]), s.free[0])
    ensures Accounted(Steps(Step(s, OnFork(true, t)), evs).tasks[s.free[0]].stats, t.first)
  {
    StepKeepsOrigin(s, OnFork(true, t), s.free[0]);
    TicksAreConserved(Step(s, OnFork(true, t)), evs, s.free[0]);
  }

  /** The same from boot for idle, which never leaves, and for task 1 until it exits. */
  lemma TicksSinceBoot(idleStart: Word, taskStart: Word, evs: seq<Event>, p: Slot)
    requires p <= 1
    requires forall n :: 0 <= n <= |evs| ==> Live(Steps(BootSched(idleStart, taskStart), evs[..n]), p)
    ensures Accounted(Steps(BootSched(idleStart, taskStart), evs).tasks[p].stats, if p == 0 then idleStart else taskStart)
  {
    BootOrigin(idleStart, taskStart, p);
    TicksAreConserved(BootSched(idleStart, taskStart), evs, p);
  }

  lemma BootOrigin(idleStart: Word, taskStart: Word, p: Slot)
    requires p <= 1
    ensures Origin(BootSched(idleStart, taskStart).tasks[p].stats) == if p == 0 then idleStart else taskStart
  {
  }

  lemma {:induction false} OriginConstant(s: Sched, evs: seq<Event>, p: Slot)
    requires forall n :: 0 <= n <= |evs| ==> Live(Steps(s, evs[..n]), p)
    ensures Origin(Steps(s, evs).tasks[p].stats) == Origin(s.tasks[p].stats)
    decreases |evs|
  {
    if evs != [] {
      var rest := evs[..|evs| - 1];
      forall n | 0 <= n <= |rest| ensures Live(Steps(s, rest[..n]), p) {
        assert rest[..n] == evs[..n];
      }
      OriginConstant(s, rest, p);
      assert Live(Steps(s, evs[..|rest|]), p);
      StepKeepsOrigin(Steps(s, rest), evs[|evs| - 1], p);
    }
  }

  // ---- bounded waiting -------------------------------------------------

  /** The quanta of the first k ready tasks. */
  function Ahead(s: Sched, k: nat): int
    requires k <= |s.ready|
  {
    if k == 0 then 0 else Ahead(s, k - 1) + s.tasks[s.ready[k - 1]].quantum
  }

  function IndexOf(q: seq<Slot>, p: Slot): (k: nat)
    requires p in q
    ensures k < |q| && q[k] == p
  {
    if q[0] == p then 0 else 1 + IndexOf(q[1..], p)
  }

  lemma {:induction false} IndexIsUnique(q: seq<Slot>, p: Slot, k: nat)
    requires Distinct(q) && k < |q| && q[k] == p
    ensures IndexOf(q, p) == k
  {
  }

  /** How many ticks at most until the ready task p runs. */
  function Wait(s: Sched, p: Slot): int
    requires p in s.ready
  {
    s.rq + Ahead(s, IndexOf(s.ready, p))
  }

  lemma {:induction false} AheadAfterFirst(s: Sched, s': Sched, k: nat)
    requires k < |s.ready|
    requires s.ready[1..] <= s'.ready
    requires forall p: Slot :: s'.tasks[p].quantum == s.tasks[p].quantum
    ensures Ahead(s', k) == Ahead(s, k + 1) - s.tasks[s.ready[0]].quantum
  {
    if k > 0 {
      AheadAfterFirst(s, s', k - 1);
      assert s'.ready[k - 1] == s.ready[1..][k - 1];
    } else {
      assert Ahead(s, 1) == s.tasks[s.ready[0]].quantum;
    }
  }

  lemma {:induction false} AheadSame(s: Sched, s': Sched, k: nat)
    requires k <= |s.ready| && s.ready <= s'.ready
    requires forall i :: 0 <= i < k ==> s'.tasks[s.ready[i]].quantum == s.tasks[s.ready[i]].quantum
    ensures Ahead(s', k) == Ahead(s, k)
  {
    if k > 0 {
      AheadSame(s, s', k - 1);
    }
  }

  lemma {:induction false} AheadPositive(s: Sched, k: nat)
    requires QuantaOk(s) && k <= |s.ready| && (forall p :: p in s.ready ==> p !in s.free)
    ensures Ahead(s, k) >= k
  {
    if k > 0 {
      AheadPositive(s, k - 1);
      assert s.ready[k - 1] in s.ready;
    }
  }

  /** A dispatch runs the first ready task and advances the others by one place. */
  lemma DispatchAdvances(s: Sched, t: Clock, p: Slot)
    requires Distinct(s.ready) && p in s.ready
    ensures p == s.ready[0] ==> Dispatch(s, t).running == p
    ensures p != s.ready[0] ==>
      p in Dispatch(s, t).ready && Wait(Dispatch(s, t), p) == Ahead(s, IndexOf(s.ready, p))
  {
    DispatchShape(s, t);
    TailIsDistinct(s.ready);
    if p != s.ready[0] {
      AheadAfterFirst(s, Dispatch(s, t), IndexOf(s.ready[1..], p));
    }
  }

  /** Slot p keeps its place, with the same quanta ahead, when the queue only grows at its end. */
  lemma PlaceKept(s: Sched, s': Sched, p: Slot)
    requires Partition(s) && Distinct(s'.ready) && p in s.ready && s.ready <= s'.ready
    requires forall q: Slot :: q in s.ready ==> s'.tasks[q].quantum == s.tasks[q].quantum
    ensures p in s'.ready && IndexOf(s'.ready, p) == IndexOf(s.ready, p)
    ensures Ahead(s', IndexOf(s'.ready, p)) == Ahead(s, IndexOf(s.ready, p))
  {
    var i := IndexOf(s.ready, p);
    assert s'.ready[i] == p;
    IndexIsUnique(s'.ready, p, i);
    AheadSame(s, s', i);
  }

  /** Requeueing the running task and dispatching. */
  lemma SwitchWaits(s: Sched, t: Clock, p: Slot)
    requires Partition(s) && p in s.ready
    ensures var s' := Dispatch(Requeue(s, t.first), t);
      if p == s.ready[0] then s'.running == p
      else p in s'.ready && Wait(s', p) == Ahead(s, IndexOf(s.ready, p))
  {
    var r := Requeue(s, t.first);
    assert s.running !in s.ready;
    SnocIsDistinct(s.ready, s.running);
    PlaceKept(s, r, p);
    DispatchAdvances(r, t, p);
  }

  /** Each tick brings a ready task exactly one tick closer, and the last one runs it. */
  lemma TickWaits(s: Sched, t: Clock, p: Slot)
    requires SchedOk(s) && p in s.ready
    ensures Wait(s, p) >= 1
    ensures if Wait(s, p) == 1 then Tick(s, t).running == p
      else p in Tick(s, t).ready && Wait(Tick(s, t), p) == Wait(s, p) - 1
  {
    var i := IndexOf(s.ready, p);
    AheadPositive(s, i);
    if s.rq == 1 {
      var z := s.(rq := 0);
      SwitchWaits(z, t, p);
      PlaceKept(s, z, p);
      if p == s.ready[0] {
        IndexIsUnique(s.ready, p, 0);
      } else {
        assert i != 0;
      }
    } else {
      PlaceKept(s, Tick(s, t), p);
    }
  }

  /** A yield of the running task runs the first ready task and brings every other one closer. */
  lemma YieldWaits(s: Sched, t: Clock, p: Slot)
    requires SchedOk(s) && p in s.ready
    ensures if p == s.ready[0] then Yield(s, t).running == p
      else p in Yield(s, t).ready && Wait(Yield(s, t), p) == Wait(s, p) - s.rq
  {
    SwitchWaits(s, t, p);
  }

  /** So does its exit. */
  lemma ExitWaits(s: Sched, t: Clock, p: Slot)
    requires SchedOk(s) && p in s.ready
    ensures if p == s.ready[0] then Exit(s, t).running == p
      else p in Exit(s, t).ready && Wait(Exit(s, t), p) == Wait(s, p) - s.rq
  {
    var r := Leaves(s);
    PlaceKept(s, r, p);
    DispatchAdvances(r, t, p);
  }

  /** A fork, successful or not, and a change of mode change no waiting time. */
  lemma OthersWait(s: Sched, e: Event, p: Slot)
    requires SchedOk(s) && p in s.ready && (e.OnFork? || e.OnEnter? || e.OnLeave?)
    ensures p in Step(s, e).ready && Wait(Step(s, e), p) == Wait(s, p)
  {
    StepOk(s, e);
    if e.OnFork? && s.free != [] {
      assert s.free[0] in s.free;
    }
    PlaceKept(s, Step(s, e), p);
  }

  predicate Urgent(e: Event) { e.OnTick? || e.OnYield? || e.OnExit? }

  function UrgentCount(evs: seq<Event>): nat
    decreases |evs|
  {
    if evs == [] then 0 else UrgentCount(evs[..|evs| - 1]) + if Urgent(evs[|evs| - 1]) then 1 else 0
  }

  /** A ready task runs after at most Wait ticks, yields and exits, whatever else happens. */
  lemma {:induction false} BoundedWaiting(s: Sched, evs: seq<Event>, p: Slot)
    requires SchedOk(s) && p in s.ready
    ensures (exists n :: 0 <= n <= |evs| && Steps(s, evs[..n]).running == p)
      || (p in Steps(s, evs).ready && 1 <= Wait(Steps(s, evs), p) <= Wait(s, p) - UrgentCount(evs))
    decreases |evs|
  {
    if evs == [] {
      TickWaits(s, Clock(0, 0, 0), p);
    } else {
      var rest, e := evs[..|evs| - 1], evs[|evs| - 1];
      BoundedWaiting(s, rest, p);
      if n :| 0 <= n <= |rest| && Steps(s, rest[..n]).running == p {
        assert rest[..n] == evs[..n];
      } else {
        var u := Steps(s, rest);
        StepsOk(s, rest);
        StepWaits(u, e, p);
        if Step(u, e).running == p {
          assert evs[..|evs|] == evs;
        } else {
          StepOk(u, e);
          TickWaits(Step(u, e), Clock(0, 0, 0), p);
        }
      }
    }
  }

  lemma StepWaits(s: Sched, e: Event, p: Slot)
    requires SchedOk(s) && p in s.ready
    ensures Step(s, e).running == p
      || (p in Step(s, e).ready && Wait(Step(s, e), p) <= Wait(s, p) - if Urgent(e) then 1 else 0)
  {
    match e
    case OnTick(t) => TickWaits(s, t, p);
    case OnYield(t) => YieldWaits(s, t, p);
    case OnExit(t) => ExitWaits(s, t, p);
    case OnFork(_, _) => OthersWait(s, e, p);
    case OnEnter(_) => OthersWait(s, e, p);
    case OnLeave(_) => OthersWait(s, e, p);
  }

  /** Hence no ready task starves: enough ticks, yields or exits and it has run. */
  lemma NoStarvation(s: Sched, evs: seq<Event>, p: Slot)
    requires SchedOk(s) && p in s.ready && UrgentCount(evs) >= Wait(s, p)
    ensures exists n :: 0 <= n <= |evs| && Steps(s, evs[..n]).running == p
  {
    BoundedWaiting(s, evs, p);
  }

  // ---- the bound from boot ---------------------------------------------

  /** A fork copies the quantum of its parent, so all are what boot gave. */
  ghost predicate QuantaDefault(s: Sched) {
    (forall p: Slot :: Live(s, p) ==> s.tasks[p].quantum == DEFAULT_QUANTUM) && s.rq <= DEFAULT_QUANTUM
  }

  lemma StepKeepsQuanta(s: Sched, e: Event)
    requires SchedOk(s) && QuantaDefault(s)
    ensures QuantaDefault(Step(s, e))
  {
    if Enabled(s, e) {
      match e
      case OnTick(t) =>
        if s.rq == 1 && s.ready != [] {
          DispatchKeepsQuanta(s, Requeue(s.(rq := 0), t.first), t);
        }
      case OnYield(t) => DispatchKeepsQuanta(s, Requeue(s, t.first), t);
      case OnFork(ok, t) => ForkKeepsQuanta(s, ok, t);
      case OnExit(t) => DispatchKeepsQuanta(s, Leaves(s), t);
      case OnEnter(t) =>
      case OnLeave(t) =>
    }
  }

  lemma DispatchKeepsQuanta(s: Sched, r: Sched, t: Clock)
    requires SchedOk(s) && QuantaDefault(s)
    requires r.free == s.free || r.free == s.free + [s.running]
    requires forall p :: p in r.ready ==> p in s.ready || p == s.running
    requires forall p: Slot :: r.tasks[p].quantum == s.tasks[p].quantum
    ensures QuantaDefault(Dispatch(r, t))
  {
    DispatchShape(r, t);
    var n := Dispatch(r, t).running;
    assert n == IDLE || n in r.ready;
    assert Live(s, n);
  }

  lemma ForkKeepsQuanta(s: Sched, ok: bool, t: Clock)
    requires SchedOk(s) && QuantaDefault(s)
    ensures QuantaDefault(Fork(s, ok, t))
  {
    if s.free != [] {
      var s' := Fork(s, ok, t);
      assert s.free == [s.free[0]] + s.free[1..];
      assert Live(s, s.running);
      forall p: Slot | Live(s', p) ensures s'.tasks[p].quantum == DEFAULT_QUANTUM {
        assert Live(s, p) || p == s.free[0];
      }
    }
  }

  lemma {:induction false} StepsKeepQuanta(s: Sched, evs: seq<Event>)
    requires SchedOk(s) && QuantaDefault(s)
    ensures QuantaDefault(Steps(s, evs)) && SchedOk(Steps(s, evs))
    decreases |evs|
  {
    StepsOk(s, evs);
    if evs != [] {
      StepsKeepQuanta(s, evs[..|evs| - 1]);
      StepKeepsQuanta(Steps(s, evs[..|evs| - 1]), evs[|evs| - 1]);
    }
  }

  lemma {:induction false} AheadDefault(s: Sched, k: nat)
    requires Partition(s) && QuantaDefault(s) && k <= |s.ready|
    ensures Ahead(s, k) == DEFAULT_QUANTUM * k
  {
    if k > 0 {
      AheadDefault(s, k - 1);
      assert s.ready[k - 1] in s.ready;
    }
  }

  /** At most eight tasks are ready: neither idle nor the running one is. */
  lemma ReadyBounded(s: Sched)
    requires Partition(s)
    ensures |s.ready| <= NR_TASKS - 2
  {
    if s.ready != [] {
      var slots := set p: int | p in s.ready;
      SeqSetSize<int>(s.ready);
      assert |slots + {s.running}| == |slots| + 1;
      BoundedSize(slots + {s.running}, 1, NR_TASKS - 1);
    }
  }

  /** In every reachable state the k-th ready task, counted from 0, runs after at most 10 (k + 1) ticks,
      yields and exits; so every ready task runs within 80 of them. */
  lemma BootedTasksRun(idleStart: Word, taskStart: Word, before: seq<Event>, evs: seq<Event>, k: nat)
    requires k < |Steps(BootSched(idleStart, taskStart), before).ready|
    requires UrgentCount(evs) >= DEFAULT_QUANTUM * (k + 1) || UrgentCount(evs) >= DEFAULT_QUANTUM * (NR_TASKS - 2)
    ensures var s := Steps(BootSched(idleStart, taskStart), before);
      exists n :: 0 <= n <= |evs| && Steps(s, evs[..n]).running == s.ready[k]
  {
    BootOk(idleStart, taskStart);
    BootQuanta(idleStart, taskStart);
    StepsKeepQuanta(BootSched(idleStart, taskStart), before);
    DefaultsRun(Steps(BootSched(idleStart, taskStart), before), evs, k);
  }

  lemma BootQuanta(idleStart: Word, taskStart: Word)
    ensures QuantaDefault(BootSched(idleStart, taskStart))
  {
    forall p: Slot ensures Live(BootSched(idleStart, taskStart), p) <==> p < 2 {
      BootFree(p);
    }
  }

  lemma DefaultsRun(s: Sched, evs: seq<Event>, k: nat)
    requires SchedOk(s) && QuantaDefault(s) && k < |s.ready|
    requires UrgentCount(evs) >= DEFAULT_QUANTUM * (k + 1) || UrgentCount(evs) >= DEFAULT_QUANTUM * (NR_TASKS - 2)
    ensures exists n :: 0 <= n <= |evs| && Steps(s, evs[..n]).running == s.ready[k]
  {
    ReadyBounded(s);
    IndexIsUnique(s.ready, s.ready[k], k);
    AheadDefault(s, k);
    NoStarvation(s, evs, s.ready[k]);
  }
}
