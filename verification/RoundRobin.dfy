/** sched.c and the queue handling of sys.c in place: task structures in an array, their list
    anchors linked in the rings of the free and the ready queue. */
module RoundRobin {
  import opened Common
  import opened RingList
  import opened Scheduling

  const EAGAIN := 11
  const ENOMEM := 12

  /** The anchors of a queue of slots. */
  ghost function AnchorsOf(anchors: seq<Node>, q: seq<Slot>): seq<Node>
    requires |anchors| == NR_TASKS
  {
    seq(|q|, i requires 0 <= i < |q| => anchors[q[i]])
  }

  lemma AnchorsSnoc(anchors: seq<Node>, q: seq<Slot>, p: Slot)
    requires |anchors| == NR_TASKS
    ensures AnchorsOf(anchors, q + [p]) == AnchorsOf(anchors, q) + [anchors[p]]
  {
  }

  lemma AnchorsTail(anchors: seq<Node>, q: seq<Slot>)
    requires |anchors| == NR_TASKS && q != []
    ensures AnchorsOf(anchors, q) != [] && AnchorsOf(anchors, q)[0] == anchors[q[0]]
    ensures AnchorsOf(anchors, q[1..]) == AnchorsOf(anchors, q)[1..]
  {
  }

  lemma AnchorsWithout(anchors: seq<Node>, q: seq<Slot>, i: nat)
    requires |anchors| == NR_TASKS && i < |q|
    ensures AnchorsOf(anchors, q)[i] == anchors[q[i]]
    ensures AnchorsOf(anchors, q[..i] + q[i + 1..]) == AnchorsOf(anchors, q)[..i] + AnchorsOf(anchors, q)[i + 1..]
  {
  }

  lemma WithoutFirst(r: seq<Node>)
    requires r != []
    ensures r[..0] + r[0 + 1..] == r[1..]
  {
  }

  lemma AllSlots(q: seq<Slot>)
    requires |q| == NR_TASKS && forall k :: 0 <= k < NR_TASKS ==> q[k] == k
    ensures q == [0, 1, 2, 3, 4, 5, 6, 7, 8, 9]
  {
  }

  method MakeAnchors() returns (anchors: seq<Node>)
    ensures |anchors| == NR_TASKS
    ensures forall i :: 0 <= i < NR_TASKS ==> anchors[i].slot == i && fresh(anchors[i])
  {
    anchors := [];
    var i := 0;
    while i < NR_TASKS
      invariant i <= NR_TASKS && |anchors| == i
      invariant forall k :: 0 <= k < i ==> anchors[k].slot == k && fresh(anchors[k])
    {
      var n := new Node(i);
      anchors := anchors + [n];
      i := i + 1;
    }
  }

  /** The free and the ready queue: rings of the anchors task[i].task.list. */
  class Queues {
    const lists: Lists
    const freequeue: Node
    const readyqueue: Node
    const anchors: seq<Node>

    /** The slots in each queue, first one first. */
    ghost var free: seq<Slot>
    ghost var ready: seq<Slot>
    ghost const nodes: set<Node>

    ghost predicate Shape() {
      && |anchors| == NR_TASKS
      && (forall i :: 0 <= i < NR_TASKS ==> anchors[i].slot == i && anchors[i] in nodes)
      && freequeue in nodes && readyqueue in nodes && freequeue != readyqueue
      && freequeue.slot < 0 && readyqueue.slot < 0
    }

    /** The two rings hold the anchors of these slots. */
    ghost predicate Holds(rings: Rings, free: seq<Slot>, ready: seq<Slot>)
      requires Shape()
    {
      && (forall h :: h in rings ==> h == freequeue || h == readyqueue)
      && freequeue in rings && rings[freequeue] == AnchorsOf(anchors, free)
      && readyqueue in rings && rings[readyqueue] == AnchorsOf(anchors, ready)
    }

    ghost predicate Valid()
      reads this, lists, nodes
    {
      && Shape()
      && lists.nodes <= nodes && lists.Valid()
      && Holds(lists.rings, free, ready)
    }

    /** init_freequeue and the ready queue, all slots free. */
    constructor ()
      ensures Valid() && free == [0, 1, 2, 3, 4, 5, 6, 7, 8, 9] && ready == []
      ensures fresh(lists) && fresh(nodes)
    {
      var freeHead := new Node(-1);
      var readyHead := new Node(-2);
      var slots := MakeAnchors();
      lists := new Lists();
      freequeue, readyqueue, anchors := freeHead, readyHead, slots;
      ghost var all := {freeHead, readyHead} + set n | n in slots;
      assert forall n :: n in all ==> fresh(n);
      nodes := all;
      free, ready := [], [];
      new;
      InitHeads();
      FillFree();
    }

    method FillFree()
      requires Valid() && free == ready == []
      modifies this`free, lists, nodes
      ensures Valid() && free == [0, 1, 2, 3, 4, 5, 6, 7, 8, 9]
    {
      var i := 0;
      while i < NR_TASKS
        invariant i <= NR_TASKS && Valid()
        invariant |free| == i && forall k :: 0 <= k < i ==> free[k] == k
      {
        PushFree(i);
        i := i + 1;
      }
      AllSlots(free);
    }

    method InitHeads()
      requires Shape() && lists.Valid() && lists.rings == map[] && lists.nodes == {} && free == ready == []
      modifies lists, nodes
      ensures Valid()
    {
      lists.InitListHead(freequeue);
      lists.InitListHead(readyqueue);
    }

    /** A slot in no queue has a loose anchor. */
    lemma AnchorIsLoose(p: Slot)
      requires Valid() && p !in free && p !in ready
      ensures Loose(lists.rings, anchors[p])
    {
      forall h | h in lists.rings ensures anchors[p] !in Cycle(lists.rings, h) {
        var q := if h == freequeue then free else ready;
        assert lists.rings[h] == AnchorsOf(anchors, q);
        forall i | 0 <= i < |q| ensures AnchorsOf(anchors, q)[i] != anchors[p] {
          assert q[i] in q;
        }
      }
    }

    /** list_add_tail of a task. */
    method Append(p: Slot, head: Node)
      requires Shape() && lists.nodes <= nodes && lists.Valid()
      requires head in lists.rings && Loose(lists.rings, anchors[p])
      modifies lists, nodes
      ensures lists.nodes <= nodes && lists.Valid()
      ensures lists.rings == old(lists.rings)[head := old(lists.rings)[head] + [anchors[p]]]
    {
      lists.Neighbours(head, 0);
      assert Cycle(lists.rings, head)[0] == head;
      lists.ListAddTail(anchors[p], head);
    }

    /** list_first and list_del; the slot is the one whose structure holds the anchor. */
    method TakeFirst(head: Node) returns (e: Node)
      requires Shape() && lists.nodes <= nodes && lists.Valid()
      requires head in lists.rings && lists.rings[head] != []
      modifies lists, nodes
      ensures lists.nodes <= nodes && lists.Valid()
      ensures e == old(lists.rings)[head][0]
      ensures lists.rings == old(lists.rings)[head := old(lists.rings)[head][1..]]
    {
      e := lists.ListFirst(head);
      WithoutFirst(lists.rings[head]);
      Drop(e, head, 0);
    }

    /** list_del of entry i of a ring. */
    method Drop(e: Node, ghost head: Node, ghost i: nat)
      requires Shape() && lists.nodes <= nodes && lists.Valid()
      requires head in lists.rings && i < |lists.rings[head]| && lists.rings[head][i] == e
      modifies lists, nodes
      ensures lists.nodes <= nodes && lists.Valid()
      ensures lists.rings == old(lists.rings)[head := old(lists.rings)[head][..i] + old(lists.rings)[head][i + 1..]]
    {
      lists.Neighbours(head, i + 1);
      assert Cycle(lists.rings, head)[i + 1] == e && e in Cycle(lists.rings, head);
      lists.ListDel(e, head, i);
    }

    /** list_del of a task, whatever its queue. */
    method Remove(p: Slot)
      requires Valid() && (p in free <==> p !in ready)
      modifies this`free, this`ready, lists, nodes
      ensures Valid() && free == Without(old(free), p) && ready == Without(old(ready), p)
    {
      ghost var head, i := Located(lists.rings, free, ready, p);
      Drop(anchors[p], head, i);
      Record(Without(free, p), Without(ready, p));
    }

    /** Notes the slots of both queues, once the rings are rewired. */
    ghost method Record(newFree: seq<Slot>, newReady: seq<Slot>)
      requires Shape() && lists.nodes <= nodes && lists.Valid() && Holds(lists.rings, newFree, newReady)
      modifies this`free, this`ready
      ensures Valid() && free == newFree && ready == newReady
    {
      free, ready := newFree, newReady;
    }

    /** Where the anchor of a queued slot is, and what its ring is without it. */
    lemma Located(rings: Rings, free: seq<Slot>, ready: seq<Slot>, p: Slot) returns (head: Node, i: nat)
      requires Shape() && Holds(rings, free, ready) && (p in free <==> p !in ready)
      ensures head in rings && i < |rings[head]| && rings[head][i] == anchors[p]
      ensures Holds(rings[head := rings[head][..i] + rings[head][i + 1..]], Without(free, p), Without(ready, p))
    {
      var q := if p in ready then ready else free;
      head := if p in ready then readyqueue else freequeue;
      i := IndexOf(q, p);
      AnchorsWithout(anchors, q, i);
    }

    method PushReady(p: Slot)
      requires Valid() && p !in free && p !in ready
      modifies this`ready, lists, nodes
      ensures Valid() && ready == old(ready) + [p]
    {
      AnchorIsLoose(p);
      Append(p, readyqueue);
      AnchorsSnoc(anchors, ready, p);
      ready := ready + [p];
    }

    method PushFree(p: Slot)
      requires Valid() && p !in free && p !in ready
      modifies this`free, lists, nodes
      ensures Valid() && free == old(free) + [p]
    {
      AnchorIsLoose(p);
      Append(p, freequeue);
      AnchorsSnoc(anchors, free, p);
      free := free + [p];
    }

    method PopReady() returns (p: Slot)
      requires Valid() && ready != []
      modifies this`ready, lists, nodes
      ensures Valid() && p == old(ready)[0] && ready == old(ready)[1..]
    {
      AnchorsTail(anchors, ready);
      var e := TakeFirst(readyqueue);
      p := e.slot;
      ready := ready[1..];
    }

    method PopFree() returns (p: Slot)
      requires Valid() && free != []
      modifies this`free, lists, nodes
      ensures Valid() && p == old(free)[0] && free == old(free)[1..]
    {
      AnchorsTail(anchors, free);
      var e := TakeFirst(freequeue);
      p := e.slot;
      free := free[1..];
    }

    method ReadyEmpty() returns (r: bool)
      requires Valid()
      ensures r <==> ready == []
    {
      r := lists.ListEmpty(readyqueue);
      assert |lists.rings[readyqueue]| == |ready|;
    }

    method FreeEmpty() returns (r: bool)
      requires Valid()
      ensures r <==> free == []
    {
      r := lists.ListEmpty(freequeue);
      assert |lists.rings[freequeue]| == |free|;
    }
  }

  /** Boot, then any events: the scheduler is in the state of the model. */
  method BootAndDrive(idleStart: Word, taskStart: Word, evs: seq<Event>) returns (k: Scheduler)
    ensures k.Valid() && k.State() == Steps(BootSched(idleStart, taskStart), evs) && SchedOk(k.State())
  {
    k := new Scheduler(idleStart, taskStart);
    BootOk(idleStart, taskStart);
    k.Drive(evs);
  }

  /** The slot fork takes is in neither queue any more. */
  lemma ForkTakes(s: Sched)
    requires Partition(s) && s.free != []
    ensures s.free[0] !in s.free[1..] && s.free[0] !in s.ready
  {
    TailIsDistinct(s.free);
    assert s.free[0] in s.free;
  }

  /** The time since the last reading went to one counter, modulo 2^32. */
  ghost predicate Charged(a: Stats, b: Stats, c: Counter, now: Word) {
    && b.elapsed == now && b.blocked == a.blocked && b.trans == a.trans
    && b.user == (if c == User then (a.user + now - a.elapsed) % 0x1_0000_0000 else a.user)
    && b.system == (if c == System then (a.system + now - a.elapsed) % 0x1_0000_0000 else a.system)
    && b.ready == (if c == Waiting then (a.ready + now - a.elapsed) % 0x1_0000_0000 else a.ready)
  }

  class Scheduler {
    const queues: Queues
    /** The task structures, by slot. */
    var task: Tasks
    var current: Slot
    var remainingQuantum: int
    var globalPid: int

    ghost predicate Valid()
      reads this, queues, queues.lists, queues.nodes
    {
      queues.Valid()
    }

    /** The value of all of the above. */
    ghost function State(): Sched
      reads this, queues
    {
      Sched(queues.free, queues.ready, current, remainingQuantum, task, globalPid)
    }

    /** init_sched, init_idle and init_task1. */
    constructor (idleStart: Word, taskStart: Word)
      ensures Valid() && State() == BootSched(idleStart, taskStart)
      ensures fresh(queues) && fresh(queues.lists) && fresh(queues.nodes)
    {
      queues := new Queues();
      task := seq(NR_TASKS, _ => UNUSED);
      current, remainingQuantum, globalPid := IDLE, 0, FIRST_PID;
      new;
      BootIsInit(idleStart, taskStart);
      assert State() == EmptySched();
      InitIdle(idleStart);
      InitTask1(taskStart);
    }

    method InitIdle(now: Word)
      requires Valid() && queues.free != []
      modifies this`task, queues, queues.lists, queues.nodes
      ensures Valid() && State() == Scheduling.InitIdle(old(State()), now)
    {
      var c := queues.PopFree();
      SetIdle(c, now);
    }

    method SetIdle(c: Slot, now: Word)
      modifies this`task
      ensures State() == IdleSet(old(State()), c, now)
    {
      task := task[c := task[c].(pid := 0, quantum := DEFAULT_QUANTUM, stats := Stats(0, 0, 0, 0, now, 0))];
    }

    method InitTask1(now: Word)
      requires Valid() && queues.free != []
      modifies this, queues, queues.lists, queues.nodes
      ensures Valid() && State() == Scheduling.InitTask1(old(State()), now)
    {
      var c := queues.PopFree();
      SetTask1(c, now);
    }

    method SetTask1(c: Slot, now: Word)
      modifies this`task, this`remainingQuantum, this`current
      ensures State() == Task1Set(old(State()), c, now)
    {
      task := task[c := task[c].(pid := 1, state := Run, quantum := DEFAULT_QUANTUM, stats := Stats(0, 0, 0, 0, now, 0))];
      remainingQuantum := DEFAULT_QUANTUM;
      current := c;
    }

    /** update_stats on one counter of a task. */
    method UpdateStats(p: Slot, c: Counter, now: Word)
      modifies this`task
      ensures State() == ChargeSlot(old(State()), p, c, now)
      ensures Charged(old(task)[p].stats, task[p].stats, c, now) && forall q: Slot :: q != p ==> task[q] == old(task)[q]
    {
      var st := task[p].stats;
      match c {
        case User => st := st.(user := (st.user + (now - st.elapsed)) % TWO32);
        case System => st := st.(system := (st.system + (now - st.elapsed)) % TWO32);
        case Waiting => st := st.(ready := (st.ready + (now - st.elapsed)) % TWO32);
      }
      st := st.(elapsed := now);
      task := task[p := task[p].(stats := st)];
    }

    // ---- sched.c -----------------------------------------------------------

    method NeedsSched() returns (r: bool)
      requires Valid()
      modifies this`remainingQuantum
      ensures r <==> old(State()).rq == 0 && queues.ready != []
      ensures remainingQuantum == if old(remainingQuantum) == 0 && !r then task[current].quantum else old(remainingQuantum)
    {
      var empty := queues.ReadyEmpty();
      if remainingQuantum == 0 && !empty {
        return true;
      }
      if remainingQuantum == 0 {
        remainingQuantum := task[current].quantum;
      }
      return false;
    }

    /** update_process_state_rr. A task that does not run is in one of the queues; one that runs in none. */
    method UpdateProcessState(p: Slot, dst: Destination, now: Word)
      requires Valid() && Distinct(queues.free) && Distinct(queues.ready)
      requires if task[p].state == Run then p !in queues.free && p !in queues.ready else p in queues.free <==> p !in queues.ready
      modifies this`task, queues, queues.lists, queues.nodes
      ensures Valid() && State() == Transferred(old(State()), p, dst, now)
    {
      WithoutLacks(queues.free, p);
      WithoutLacks(queues.ready, p);
      Detach(p);
      Place(p, dst, now);
    }

    method Detach(p: Slot)
      requires Valid() && (task[p].state != Run ==> (p in queues.free <==> p !in queues.ready))
      modifies queues, queues.lists, queues.nodes
      ensures Valid() && State() == Detached(old(State()), p)
    {
      if task[p].state != Run {
        queues.Remove(p);
      }
    }

    method Place(p: Slot, dst: Destination, now: Word)
      requires Valid() && p !in queues.free && p !in queues.ready
      modifies this`task, queues, queues.lists, queues.nodes
      ensures Valid() && State() == Placed(old(State()), p, dst, now)
    {
      match dst
      case Nowhere => SetTask(p, task[p].(state := Run));
      case ToReady => PlaceReady(p, now);
      case ToFree => PlaceFree(p);
    }

    method PlaceReady(p: Slot, now: Word)
      requires Valid() && p !in queues.free && p !in queues.ready
      modifies this`task, queues, queues.lists, queues.nodes
      ensures Valid() && State() == Placed(old(State()), p, ToReady, now)
    {
      queues.PushReady(p);
      UpdateStats(p, System, now);
      SetTask(p, task[p].(state := Ready));
    }

    method PlaceFree(p: Slot)
      requires Valid() && p !in queues.free && p !in queues.ready
      modifies this`task, queues, queues.lists, queues.nodes
      ensures Valid() && forall now: Word :: State() == Placed(old(State()), p, ToFree, now)
    {
      queues.PushFree(p);
      SetTask(p, task[p].(state := Blocked));
    }

    /** The first half of a forced switch: the running task goes to the ready queue. */
    method RequeueCurrent(now: Word)
      requires Valid() && Distinct(queues.free) && Distinct(queues.ready)
      requires task[current].state == Run && current !in queues.free && current !in queues.ready
      modifies this`task, queues, queues.lists, queues.nodes
      ensures Valid() && State() == Requeue(old(State()), now)
    {
      RunningIsRequeued(State(), now);
      UpdateProcessState(current, ToReady, now);
    }

    method SchedNext(t: Clock)
      requires Valid()
      modifies this, queues, queues.lists, queues.nodes
      ensures Valid() && State() == Dispatch(old(State()), t)
    {
      var next := TakeNext();
      SwitchTo(next, t);
    }

    /** The first part of sched_next_rr. */
    method TakeNext() returns (next: Slot)
      requires Valid()
      modifies queues, queues.lists, queues.nodes
      ensures Valid() && next == Next(old(State())) && State() == Unqueued(old(State()))
    {
      next := IDLE;
      var empty := queues.ReadyEmpty();
      if !empty {
        next := queues.PopReady();
      }
    }

    /** The rest of sched_next_rr, with the task switch. */
    method SwitchTo(next: Slot, t: Clock)
      modifies this
      ensures State() == Scheduling.SwitchTo(old(State()), next, t)
    {
      task := task[next := task[next].(state := Run)];
      remainingQuantum := task[next].quantum;
      UpdateStats(current, System, t.second);
      UpdateStats(next, Waiting, t.third);
      var st := task[next].stats;
      task := task[next := task[next].(stats := st.(trans := (st.trans + 1) % TWO32))];
      current := next;
    }

    /** clock_routine. */
    method Schedule(t: Clock)
      requires Valid() && SchedOk(State())
      modifies this, queues, queues.lists, queues.nodes
      ensures Valid() && State() == Tick(old(State()), t)
    {
      remainingQuantum := remainingQuantum - 1;
      var needs := NeedsSched();
      if needs {
        RequeueCurrent(t.first);
        SchedNext(t);
      }
    }

    /** sys_yield. */
    method Yield(t: Clock)
      requires Valid() && SchedOk(State()) && current != IDLE
      modifies this, queues, queues.lists, queues.nodes
      ensures Valid() && State() == Scheduling.Yield(old(State()), t)
    {
      RequeueCurrent(t.first);
      SchedNext(t);
    }

    /** The first part of sys_fork. */
    method CopyParent() returns (c: Slot)
      requires Valid() && queues.free != []
      modifies this`task, queues, queues.lists, queues.nodes
      ensures Valid() && c == old(queues.free)[0] && State() == Copied(old(State()))
    {
      c := queues.PopFree();
      SetTask(c, task[current]);
    }

    /** The last part of sys_fork. */
    method QueueChild(c: Slot, now: Word)
      requires Valid() && c !in queues.free && c !in queues.ready
      modifies this`task, this`globalPid, queues, queues.lists, queues.nodes
      ensures Valid()
      ensures var named := Named(old(State()), c, now); State() == named.(ready := named.ready + [c])
    {
      NameChild(c, now);
      queues.PushReady(c);
    }

    method NameChild(c: Slot, now: Word)
      modifies this`task, this`globalPid
      ensures State() == Named(old(State()), c, now)
    {
      globalPid := globalPid + 1;
      task := task[c := task[c].(pid := globalPid, state := Ready, stats := Stats(0, 0, 0, 0, now, 0))];
    }

    /** The queue part of sys_fork; `ok` tells whether the child got its frames. */
    method Fork(ok: bool, t: Clock) returns (r: int)
      requires Valid() && SchedOk(State()) && current != IDLE
      modifies this, queues, queues.lists, queues.nodes
      ensures Valid() && State() == Scheduling.Fork(old(State()), ok, t)
      ensures r == if old(queues.free) == [] then -12 else if !ok then -11 else task[old(queues.free)[0]].pid
      ensures r == if old(queues.free) == [] then -ENOMEM else if !ok then -EAGAIN else old(globalPid) + 1
    {
      var empty := queues.FreeEmpty();
      if empty {
        return -ENOMEM;
      }
      ForkTakes(State());
      var c := CopyParent();
      if !ok {
        queues.PushFree(c);
        return -EAGAIN;
      }
      QueueChild(c, t.first);
      return globalPid;
    }

    /** The queue part of sys_exit. */
    method Exit(t: Clock)
      requires Valid() && SchedOk(State()) && current != IDLE
      modifies this, queues, queues.lists, queues.nodes
      ensures Valid() && State() == Scheduling.Exit(old(State()), t)
    {
      FreeCurrent();
      SchedNext(t);
    }

    method FreeCurrent()
      requires Valid() && current !in queues.free && current !in queues.ready
      modifies this`task, queues, queues.lists, queues.nodes
      ensures Valid() && State() == Leaves(old(State()))
    {
      queues.PushFree(current);
      SetTask(current, task[current].(pid := -1));
    }

    method SetTask(p: Slot, t: Task)
      modifies this`task
      ensures State() == old(State()).(tasks := old(task)[p := t])
    {
      task := task[p := t];
    }

    /** user_to_system and system_to_user, at the start and the end of an interrupt. */
    method ChangeMode(toSystem: bool, t: Clock)
      modifies this`task
      ensures State() == ChargeSlot(old(State()), current, if toSystem then User else System, t.first)
      ensures Charged(old(task)[current].stats, task[current].stats, if toSystem then User else System, t.first)
    {
      UpdateStats(current, if toSystem then User else System, t.first);
    }

    /** Any events: the scheduler follows the model, so its invariants and its waiting bounds. */
    method Drive(evs: seq<Event>)
      requires Valid() && SchedOk(State())
      modifies this, queues, queues.lists, queues.nodes
      ensures Valid() && SchedOk(State()) && State() == Steps(old(State()), evs)
    {
      var i := 0;
      assert evs[..0] == [];
      while i < |evs|
        invariant i <= |evs| && Valid() && SchedOk(State()) && State() == Steps(old(State()), evs[..i])
      {
        StepsSnoc(old(State()), evs, i);
        StepOk(State(), evs[i]);
        OneEvent(evs[i]);
        i := i + 1;
      }
      assert evs[..|evs|] == evs;
    }

    method OneEvent(e: Event)
      requires Valid() && SchedOk(State())
      modifies this, queues, queues.lists, queues.nodes
      ensures Valid() && State() == Step(old(State()), e)
    {
      if e.OnTick? {
        Schedule(e.t);
      } else if e.OnEnter? || e.OnLeave? {
        ChangeMode(e.OnEnter?, e.t);
      } else if current != IDLE {
        Call(e);
      }
    }

    /** A system call of the running task. */
    method Call(e: Event)
      requires Valid() && SchedOk(State()) && current != IDLE && (e.OnYield? || e.OnFork? || e.OnExit?)
      modifies this, queues, queues.lists, queues.nodes
      ensures Valid() && State() == Step(old(State()), e)
    {
      match e
      case OnYield(t) => Yield(t);
      case OnFork(ok, t) => var pid := Fork(ok, t);
      case OnExit(t) => Exit(t);
    }
  }
}
