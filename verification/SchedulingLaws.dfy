/** What the scheduler does to whom, told in queues, numbers and clock readings: the laws here
    mention no function of the step itself but Step and Steps. */
module SchedulingLaws {
  import opened Common
  import opened Scheduling

  // ---- who runs, and for how long --------------------------------------

  /** A tick takes one from the quantum. When that was the last one, the first ready task runs with its
      full quantum and the running one goes to the end; with nobody ready it gets its own again. */
  lemma TickLaw(s: Sched, t: Clock)
    requires SchedOk(s)
    ensures var s' := Step(s, OnTick(t));
      && s'.free == s.free && s'.lastPid == s.lastPid
      && (s.rq > 1 ==> s'.running == s.running && s'.ready == s.ready && s'.rq == s.rq - 1 && s'.tasks == s.tasks)
      && (s.rq == 1 && s.ready == [] ==>
            s'.running == s.running && s'.ready == [] && s'.rq == s.tasks[s.running].quantum && s'.tasks == s.tasks)
      && (s.rq == 1 && s.ready != [] ==>
            s'.running == s.ready[0] && s'.ready == s.ready[1..] + [s.running] && s'.rq == s.tasks[s.ready[0]].quantum)
  {
    if s.rq == 1 && s.ready != [] {
      DispatchShape(Requeue(s.(rq := 0), t.first), t);
    }
  }

  /** After any tick either one tick of the quantum is gone, or the task that runs has all of its own. */
  lemma TickGivesFullQuantum(s: Sched, t: Clock)
    requires SchedOk(s)
    ensures var s' := Step(s, OnTick(t)); s'.rq == s.rq - 1 || s'.rq == s'.tasks[s'.running].quantum
  {
    if s.rq == 1 && s.ready != [] {
      DispatchShape(Requeue(s.(rq := 0), t.first), t);
    }
  }

  /** A yield does what the last tick of a quantum does; alone, the task goes on. */
  lemma YieldLaw(s: Sched, t: Clock)
    requires SchedOk(s) && s.running != IDLE
    ensures var s' := Step(s, OnYield(t));
      && s'.free == s.free && s'.lastPid == s.lastPid
      && s'.running == (s.ready + [s.running])[0] && s'.ready == (s.ready + [s.running])[1..]
      && s'.rq == s.tasks[s'.running].quantum
  {
    DispatchShape(Requeue(s, t.first), t);
  }

  /** An exit gives the slot back, without a PID, behind all other free slots; then the first ready task
      runs, or idle. */
  lemma ExitLaw(s: Sched, t: Clock)
    requires SchedOk(s) && s.running != IDLE
    ensures var s' := Step(s, OnExit(t));
      && s'.free == s.free + [s.running] && s'.lastPid == s.lastPid && s'.tasks[s.running].pid == -1
      && s'.running == (s.ready + [IDLE])[0] && s'.ready == (if s.ready == [] then [] else s.ready[1..])
      && s'.rq == s.tasks[s'.running].quantum
  {
    DispatchShape(Leaves(s), t);
  }

  /** update_process_state_rr of any task: it ends where it was sent, in the state that goes with it, and the
      other tasks keep their order. */
  lemma TransferLaw(s: Sched, p: Slot, dst: Destination, now: Word)
    requires Distinct(s.free) && Distinct(s.ready)
    requires s.tasks[p].state == Run ==> p !in s.free && p !in s.ready
    ensures var s' := Transferred(s, p, dst, now);
      && s'.tasks[p].state == (match dst case Nowhere => Run case ToReady => Ready case ToFree => Blocked)
      && (dst.ToReady? ==> s'.ready != [] && s'.ready[|s'.ready| - 1] == p && p !in s'.free)
      && (dst.ToFree? ==> s'.free != [] && s'.free[|s'.free| - 1] == p && p !in s'.ready)
      && (dst.Nowhere? ==> p !in s'.free && p !in s'.ready)
      && (dst.ToReady? ==>
            var a, b := s.tasks[p].stats, s'.tasks[p].stats;
            b.system == (a.system + now - a.elapsed) % 0x1_0000_0000 && b == a.(system := b.system, elapsed := now))
      && (!dst.ToReady? ==> s'.tasks[p].stats == s.tasks[p].stats)
      && (forall q: Slot :: q != p ==> s'.tasks[q] == s.tasks[q] && (q in s'.free <==> q in s.free) && (q in s'.ready <==> q in s.ready))
  {
    WithoutLacks(s.free, p);
    WithoutLacks(s.ready, p);
  }

  predicate AllTicks(evs: seq<Event>) {
    forall i :: 0 <= i < |evs| ==> evs[i].OnTick?
  }

  /** n ticks later the task still runs, alone. */
  ghost predicate GoesOn(s: Sched, s': Sched, n: nat) {
    && s'.running == s.running && s'.ready == [] && s'.tasks == s.tasks
    && s'.rq == 10 - (10 - s.rq + n) % 10
  }

  /** A task alone, idle or not, runs on, from quantum to quantum. */
  lemma {:induction false} LoneTicks(s: Sched, evs: seq<Event>)
    requires SchedOk(s) && QuantaDefault(s) && s.ready == [] && AllTicks(evs)
    ensures GoesOn(s, Steps(s, evs), |evs|)
    decreases |evs|
  {
    if evs == [] {
      NextRemainder(s.rq, 0);
    } else {
      var rest := evs[..|evs| - 1];
      LoneTicks(s, rest);
      StepsKeepQuanta(s, rest);
      LoneTick(s, Steps(s, rest), evs[|evs| - 1], |rest|);
    }
  }

  lemma LoneTick(first: Sched, s: Sched, e: Event, n: nat)
    requires SchedOk(s) && QuantaDefault(s) && s.ready == [] && e.OnTick? && GoesOn(first, s, n) && 1 <= first.rq <= 10
    ensures GoesOn(first, Step(s, e), n + 1)
  {
    TickLaw(s, e.t);
    NextRemainder(first.rq, n);
  }

  lemma NextRemainder(rq: int, n: nat)
    requires 1 <= rq <= 10
    ensures var before, after := 10 - (10 - rq + n) % 10, 10 - (10 - rq + n + 1) % 10;
      1 <= before <= 10 && after == if before == 1 then 10 else before - 1
  {
  }

  /** Idle has PID 0 and task 1, which runs first, PID 1; nobody else is in use. */
  lemma BootPidsLaw(idleStart: Word, taskStart: Word, p: Slot)
    ensures var b := BootSched(idleStart, taskStart);
      b.running == 1 && b.rq == 10 && (Live(b, p) <==> p <= 1) && (p <= 1 ==> b.tasks[p].pid == p && b.tasks[p].quantum == 10)
  {
    BootFree(p);
  }

  /** From boot, as long as task 1 is alone. */
  lemma BootTicks(idleStart: Word, taskStart: Word, evs: seq<Event>)
    requires AllTicks(evs)
    ensures var s := Steps(BootSched(idleStart, taskStart), evs);
      s.running == 1 && s.ready == [] && s.rq == 10 - |evs| % 10
  {
    BootOk(idleStart, taskStart);
    BootQuanta(idleStart, taskStart);
    LoneTicks(BootSched(idleStart, taskStart), evs);
  }

  // ---- PIDs ------------------------------------------------------------

  /** A fork that gets its slot and its frames. */
  predicate Succeeds(s: Sched, e: Event) {
    e.OnFork? && e.ok && s.running != IDLE && s.free != []
  }

  /** A successful fork puts the first free slot behind the ready tasks, with the quantum of its parent and
      all statistics at zero; every other task stays as it is. */
  lemma ForkLaw(s: Sched, t: Clock)
    requires SchedOk(s) && s.running != IDLE && s.free != []
    ensures var s' := Step(s, OnFork(true, t));
      && s'.free == s.free[1..] && s'.ready == s.ready + [s.free[0]] && s'.running == s.running && s'.rq == s.rq
      && (forall p: Slot :: p != s.free[0] ==> s'.tasks[p] == s.tasks[p])
      && s'.tasks[s.free[0]].state == Ready && s'.tasks[s.free[0]].quantum == s.tasks[s.running].quantum
      && s'.tasks[s.free[0]].stats == Stats(0, 0, 0, 0, t.first, 0)
      && (forall p: Slot :: Live(s, p) ==> s'.tasks[s.free[0]].pid > s.tasks[p].pid)
  {
    assert s.running !in s.free;
  }

  /** A fork without frames or without a slot runs nobody else and queues nobody; a slot it took goes
      behind the other free ones. */
  lemma FailedForkLaw(s: Sched, ok: bool, t: Clock)
    requires s.running != IDLE && (s.free == [] || !ok)
    ensures var s' := Step(s, OnFork(ok, t));
      && s'.free == (if s.free == [] then [] else s.free[1..] + [s.free[0]])
      && s'.ready == s.ready && s'.running == s.running && s'.rq == s.rq && s'.lastPid == s.lastPid
      && (forall p: Slot :: Live(s, p) ==> s'.tasks[p] == s.tasks[p])
  {
    if s.free != [] {
      assert s.free[0] in s.free;
    }
  }

  /** How many forks of a run succeeded. */
  function Forks(s: Sched, evs: seq<Event>): nat
    decreases |evs|
  {
    if evs == [] then 0
    else
      var rest := evs[..|evs| - 1];
      Forks(s, rest) + if Succeeds(Steps(s, rest), evs[|evs| - 1]) then 1 else 0
  }

  lemma StepCountsForks(s: Sched, e: Event)
    ensures Step(s, e).lastPid == s.lastPid + if Succeeds(s, e) then 1 else 0
  {
    if Enabled(s, e) {
      match e
      case OnTick(t) =>
        if s.rq == 1 && s.ready != [] {
          DispatchShape(Requeue(s.(rq := 0), t.first), t);
        }
      case OnYield(t) => DispatchShape(Requeue(s, t.first), t);
      case OnExit(t) => DispatchShape(Leaves(s), t);
      case _ =>
    }
  }

  lemma {:induction false} ForksCounted(s: Sched, evs: seq<Event>)
    ensures Steps(s, evs).lastPid == s.lastPid + Forks(s, evs)
    decreases |evs|
  {
    if evs != [] {
      ForksCounted(s, evs[..|evs| - 1]);
      StepCountsForks(Steps(s, evs[..|evs| - 1]), evs[|evs| - 1]);
    }
  }

  /** From boot, whoever exits in between, the n-th task that is forked has PID 1000 + n. */
  lemma NthPid(idleStart: Word, taskStart: Word, evs: seq<Event>, e: Event)
    requires Succeeds(Steps(BootSched(idleStart, taskStart), evs), e)
    ensures var b := BootSched(idleStart, taskStart);
      var s := Steps(b, evs);
      Step(s, e).tasks[s.free[0]].pid == 1000 + Forks(b, evs + [e])
  {
    var b := BootSched(idleStart, taskStart);
    ForksCounted(b, evs);
    assert (evs + [e])[..|evs|] == evs;
    NewPid(Steps(b, evs), e);
  }

  lemma NewPid(s: Sched, e: Event)
    requires Succeeds(s, e)
    ensures Step(s, e).tasks[s.free[0]].pid == s.lastPid + 1
  {
  }

  // ---- which counter gets the ticks ------------------------------------

  /** Why the clock was read for a task: it enters the kernel, it leaves the kernel or the processor,
      or it gets the processor. */
  datatype Moment = Entry | Departure | Dispatched
  datatype Mark = Mark(clock: Word, moment: Moment)

  /** The running task gives up the processor. */
  predicate Switches(s: Sched, e: Event) {
    Enabled(s, e) && (e.OnYield? || e.OnExit? || (e.OnTick? && s.rq == 1 && s.ready != []))
  }

  /** The readings that one event makes for slot p, in order. */
  function Marks(s: Sched, e: Event, p: Slot): seq<Mark> {
    if e.OnEnter? then if p == s.running then [Mark(e.t.first, Entry)] else []
    else if e.OnLeave? then if p == s.running then [Mark(e.t.first, Departure)] else []
    else if !Switches(s, e) then []
    else
      (if p != s.running then []
       else if e.OnExit? then [Mark(e.t.second, Departure)]
       else [Mark(e.t.first, Departure), Mark(e.t.second, Departure)])
      + if p == Step(s, e).running then [Mark(e.t.third, Dispatched)] else []
  }

  function MarksOf(s: Sched, evs: seq<Event>, p: Slot): seq<Mark>
    decreases |evs|
  {
    if evs == [] then []
    else
      var rest := evs[..|evs| - 1];
      MarksOf(s, rest, p) + Marks(Steps(s, rest), evs[|evs| - 1], p)
  }

  /** The last reading, or the one before all of them. */
  function Last(start: Word, marks: seq<Mark>): Word {
    if marks == [] then start else marks[|marks| - 1].clock
  }

  /** The clock differences that end at a moment of this kind. */
  function Ending(start: Word, marks: seq<Mark>, m: Moment): int {
    if marks == [] then 0
    else
      var rest, k := marks[..|marks| - 1], marks[|marks| - 1];
      Ending(start, rest, m) + if k.moment == m then k.clock - Last(start, rest) else 0
  }

  function Times(marks: seq<Mark>, m: Moment): nat {
    if marks == [] then 0
    else Times(marks[..|marks| - 1], m) + if marks[|marks| - 1].moment == m then 1 else 0
  }

  // ---- replaying the readings ------------------------------------------

  function Replayed(st: Stats, k: Mark): Stats {
    var gone := k.clock - st.elapsed;
    match k.moment
    case Entry => st.(elapsed := k.clock, user := Wrap(st.user + gone))
    case Departure => st.(elapsed := k.clock, system := Wrap(st.system + gone))
    case Dispatched => st.(elapsed := k.clock, ready := Wrap(st.ready + gone), trans := Wrap(st.trans + 1))
  }

  function Replay(st: Stats, marks: seq<Mark>): Stats {
    if marks == [] then st else Replayed(Replay(st, marks[..|marks| - 1]), marks[|marks| - 1])
  }

  lemma {:induction false} ReplayJoin(st: Stats, m: seq<Mark>, n: seq<Mark>)
    ensures Replay(st, m + n) == Replay(Replay(st, m), n)
    decreases |n|
  {
    if n == [] {
      assert m + n == m;
    } else {
      ReplayJoin(st, m, n[..|n| - 1]);
      assert (m + n)[..|m + n| - 1] == m + n[..|n| - 1];
    }
  }

  lemma ReplayOne(st: Stats, k: Mark)
    ensures Replay(st, [k]) == Replayed(st, k)
  {
    assert [k][..0] == [];
  }

  lemma ReplayTwo(st: Stats, k: Mark, l: Mark)
    ensures Replay(st, [k] + [l]) == Replayed(Replayed(st, k), l)
  {
    ReplayJoin(st, [k], [l]);
    ReplayOne(st, k);
    ReplayOne(Replay(st, [k]), l);
  }

  /** The readings of a switch, for the task that leaves and the one that comes. */
  function SwitchMarks(out: bool, next: bool, t: Clock): seq<Mark> {
    (if out then [Mark(t.second, Departure)] else []) + if next then [Mark(t.third, Dispatched)] else []
  }

  lemma SwitchReplays(st: Stats, out: bool, next: bool, t: Clock)
    ensures var mid := if out then Replayed(st, Mark(t.second, Departure)) else st;
      Replay(st, SwitchMarks(out, next, t)) == if next then Replayed(mid, Mark(t.third, Dispatched)) else mid
  {
    var k, l := Mark(t.second, Departure), Mark(t.third, Dispatched);
    ReplayOne(st, k);
    ReplayOne(st, l);
    ReplayTwo(st, k, l);
    assert [k] + [] == [k] && [] + [l] == [l];
  }

  lemma DispatchReplays(s: Sched, t: Clock, p: Slot)
    ensures Dispatch(s, t).tasks[p].stats == Replay(s.tasks[p].stats, SwitchMarks(p == s.running, p == Dispatch(s, t).running, t))
  {
    DispatchStats(s, t, p);
    SwitchReplays(s.tasks[p].stats, p == s.running, p == Next(s), t);
  }

  lemma DispatchStats(s: Sched, t: Clock, p: Slot)
    ensures Dispatch(s, t).running == Next(s)
    ensures var mid := if p == s.running then Replayed(s.tasks[p].stats, Mark(t.second, Departure)) else s.tasks[p].stats;
      Dispatch(s, t).tasks[p].stats == if p == Next(s) then Replayed(mid, Mark(t.third, Dispatched)) else mid
  {
  }

  lemma RequeueReplays(s: Sched, t: Clock, p: Slot)
    ensures Requeue(s, t.first).tasks[p].stats ==
      Replay(s.tasks[p].stats, if p == s.running then [Mark(t.first, Departure)] else [])
  {
    ReplayOne(s.tasks[p].stats, Mark(t.first, Departure));
  }

  /** An event makes exactly its readings, in every slot that it does not fork into. */
  lemma StepReplays(s: Sched, e: Event, p: Slot)
    requires !(e.OnFork? && Enabled(s, e) && s.free != [] && p == s.free[0])
    ensures Step(s, e).tasks[p].stats == Replay(s.tasks[p].stats, Marks(s, e, p))
  {
    if Switches(s, e) {
      SwitchStepReplays(s, e, p);
    } else if e.OnEnter? {
      ReplayOne(s.tasks[p].stats, Mark(e.t.first, Entry));
    } else if e.OnLeave? {
      ReplayOne(s.tasks[p].stats, Mark(e.t.first, Departure));
    }
  }

  lemma SwitchStepReplays(s: Sched, e: Event, p: Slot)
    requires Switches(s, e)
    ensures Step(s, e).tasks[p].stats == Replay(s.tasks[p].stats, Marks(s, e, p))
  {
    var last := SwitchMarks(p == s.running, p == Step(s, e).running, e.t);
    if e.OnExit? {
      DispatchReplays(Leaves(s), e.t, p);
    } else {
      var z := if e.OnTick? then s.(rq := 0) else s;
      var first := if p == s.running then [Mark(e.t.first, Departure)] else [];
      RequeueReplays(z, e.t, p);
      DispatchReplays(Requeue(z, e.t.first), e.t, p);
      ReplayJoin(s.tasks[p].stats, first, last);
    }
    MarksOfSwitch(s, e, p);
  }

  lemma MarksOfSwitch(s: Sched, e: Event, p: Slot)
    requires Switches(s, e)
    ensures Marks(s, e, p) ==
      (if p == s.running && !e.OnExit? then [Mark(e.t.first, Departure)] else [])
      + SwitchMarks(p == s.running, p == Step(s, e).running, e.t)
  {
  }

  /** Over any run in which slot p stays in use its statistics follow the readings made for it. */
  lemma {:induction false} RunReplays(s: Sched, evs: seq<Event>, p: Slot)
    requires forall n :: 0 <= n <= |evs| ==> Live(Steps(s, evs[..n]), p)
    ensures Steps(s, evs).tasks[p].stats == Replay(s.tasks[p].stats, MarksOf(s, evs, p))
    decreases |evs|
  {
    if evs != [] {
      var rest, e := evs[..|evs| - 1], evs[|evs| - 1];
      forall n | 0 <= n <= |rest| ensures Live(Steps(s, rest[..n]), p) {
        assert rest[..n] == evs[..n];
      }
      RunReplays(s, rest, p);
      assert Live(Steps(s, evs[..|rest|]), p);
      StepReplays(Steps(s, rest), e, p);
      ReplayJoin(s.tasks[p].stats, MarksOf(s, rest, p), Marks(Steps(s, rest), e, p));
    }
  }

  // ---- what the readings add up to -------------------------------------

  lemma WrapTwice(a: int, b: int)
    ensures Wrap(Wrap(a) + b) == Wrap(a + b)
  {
    var k := a / TWO32;
    assert a == TWO32 * k + Wrap(a);
    WrapShift(Wrap(a) + b, k);
  }

  /** Each counter grew by the clock differences that end at its moments, the transitions by the
      dispatches, and nothing else changed. */
  ghost predicate AddsUp(st: Stats, marks: seq<Mark>, r: Stats) {
    && r.user == Wrap(st.user + Ending(st.elapsed, marks, Entry))
    && r.system == Wrap(st.system + Ending(st.elapsed, marks, Departure))
    && r.ready == Wrap(st.ready + Ending(st.elapsed, marks, Dispatched))
    && r.trans == Wrap(st.trans + Times(marks, Dispatched))
    && r.elapsed == Last(st.elapsed, marks) && r.blocked == st.blocked
  }

  lemma EndingSnoc(start: Word, rest: seq<Mark>, k: Mark, m: Moment)
    ensures Ending(start, rest + [k], m) == Ending(start, rest, m) + if k.moment == m then k.clock - Last(start, rest) else 0
    ensures Times(rest + [k], m) == Times(rest, m) + if k.moment == m then 1 else 0
    ensures Last(start, rest + [k]) == k.clock
  {
    assert (rest + [k])[..|rest|] == rest;
  }

  /** One counter, when the reading adds `gone` to it. */
  lemma CounterNext(a: int, ended: int, r: int, gone: int)
    requires r == Wrap(a + ended)
    ensures Wrap(r + gone) == Wrap(a + (ended + gone))
  {
    WrapTwice(a + ended, gone);
    assert a + ended + gone == a + (ended + gone);
  }

  lemma UserNext(st: Stats, rest: seq<Mark>, k: Mark, r: Stats)
    requires r.user == Wrap(st.user + Ending(st.elapsed, rest, Entry)) && r.elapsed == Last(st.elapsed, rest)
    ensures Replayed(r, k).user == Wrap(st.user + Ending(st.elapsed, rest + [k], Entry))
  {
    EndingSnoc(st.elapsed, rest, k, Entry);
    if k.moment == Entry {
      CounterNext(st.user, Ending(st.elapsed, rest, Entry), r.user, k.clock - r.elapsed);
    }
  }

  lemma SystemNext(st: Stats, rest: seq<Mark>, k: Mark, r: Stats)
    requires r.system == Wrap(st.system + Ending(st.elapsed, rest, Departure)) && r.elapsed == Last(st.elapsed, rest)
    ensures Replayed(r, k).system == Wrap(st.system + Ending(st.elapsed, rest + [k], Departure))
  {
    EndingSnoc(st.elapsed, rest, k, Departure);
    if k.moment == Departure {
      CounterNext(st.system, Ending(st.elapsed, rest, Departure), r.system, k.clock - r.elapsed);
    }
  }

  lemma ReadyNext(st: Stats, rest: seq<Mark>, k: Mark, r: Stats)
    requires r.ready == Wrap(st.ready + Ending(st.elapsed, rest, Dispatched)) && r.elapsed == Last(st.elapsed, rest)
    ensures Replayed(r, k).ready == Wrap(st.ready + Ending(st.elapsed, rest + [k], Dispatched))
  {
    EndingSnoc(st.elapsed, rest, k, Dispatched);
    if k.moment == Dispatched {
      CounterNext(st.ready, Ending(st.elapsed, rest, Dispatched), r.ready, k.clock - r.elapsed);
    }
  }

  lemma TransNext(st: Stats, rest: seq<Mark>, k: Mark, r: Stats)
    requires r.trans == Wrap(st.trans + Times(rest, Dispatched)) && r.elapsed == Last(st.elapsed, rest)
    ensures Replayed(r, k).trans == Wrap(st.trans + Times(rest + [k], Dispatched))
  {
    EndingSnoc(st.elapsed, rest, k, Dispatched);
    if k.moment == Dispatched {
      CounterNext(st.trans, Times(rest, Dispatched), r.trans, 1);
    }
  }

  lemma AddsUpNext(st: Stats, rest: seq<Mark>, k: Mark, r: Stats)
    requires AddsUp(st, rest, r)
    ensures AddsUp(st, rest + [k], Replayed(r, k))
  {
    UserNext(st, rest, k, r);
    SystemNext(st, rest, k, r);
    ReadyNext(st, rest, k, r);
    TransNext(st, rest, k, r);
    EndingSnoc(st.elapsed, rest, k, Entry);
  }

  lemma {:induction false} ReplayAdds(st: Stats, marks: seq<Mark>)
    ensures AddsUp(st, marks, Replay(st, marks))
    decreases |marks|
  {
    if marks != [] {
      var rest, k := marks[..|marks| - 1], marks[|marks| - 1];
      ReplayAdds(st, rest);
      AddsUpNext(st, rest, k, Replay(st, rest));
      assert rest + [k] == marks;
    }
  }

  /** The counters of a task since the readings that started them: its user time is what ended at kernel
      entries, its ready time what ended at dispatches, its system time the rest. */
  ghost predicate Counters(st: Stats, start: Word, marks: seq<Mark>) {
    && st.user == Wrap(Ending(start, marks, Entry))
    && st.system == Wrap(Ending(start, marks, Departure))
    && st.ready == Wrap(Ending(start, marks, Dispatched))
    && st.blocked == 0 && st.elapsed == Last(start, marks)
    && st.trans == Wrap(Times(marks, Dispatched))
  }

  /** Of a child, from its fork on. */
  lemma CountersSinceFork(s: Sched, t: Clock, evs: seq<Event>)
    requires SchedOk(s) && s.running != IDLE && s.free != []
    requires forall n :: 0 <= n <= |evs| ==> Live(Steps(Step(s, OnFork(true, t)), evs[..n]), s.free[0])
    ensures var s' := Step(s, OnFork(true, t));
      Counters(Steps(s', evs).tasks[s.free[0]].stats, t.first, MarksOf(s', evs, s.free[0]))
  {
    ForkLaw(s, t);
    RunReplays(Step(s, OnFork(true, t)), evs, s.free[0]);
    ReplayAdds(Stats(0, 0, 0, 0, t.first, 0), MarksOf(Step(s, OnFork(true, t)), evs, s.free[0]));
  }

  /** Of idle and task 1, from boot on. */
  lemma CountersSinceBoot(idleStart: Word, taskStart: Word, evs: seq<Event>, p: Slot)
    requires p <= 1
    requires forall n :: 0 <= n <= |evs| ==> Live(Steps(BootSched(idleStart, taskStart), evs[..n]), p)
    ensures var b := BootSched(idleStart, taskStart);
      Counters(Steps(b, evs).tasks[p].stats, if p == 0 then idleStart else taskStart, MarksOf(b, evs, p))
  {
    var b := BootSched(idleStart, taskStart);
    RunReplays(b, evs, p);
    BootStats(idleStart, taskStart, p);
    ReplayAdds(b.tasks[p].stats, MarksOf(b, evs, p));
  }

  lemma BootStats(idleStart: Word, taskStart: Word, p: Slot)
    requires p <= 1
    ensures BootSched(idleStart, taskStart).tasks[p].stats == Stats(0, 0, 0, 0, if p == 0 then idleStart else taskStart, 0)
  {
  }

  /** While a task waits in the ready queue no reading is made for it; the first one is its dispatch. So its
      ready time runs from when it was queued. */
  lemma ReadyIsUnread(s: Sched, e: Event, p: Slot)
    requires SchedOk(s) && p in s.ready
    ensures Marks(s, e, p) == if Step(s, e).running == p then [Mark(e.t.third, Dispatched)] else []
  {
    if e.OnTick? {
      TickLaw(s, e.t);
    }
  }
}
