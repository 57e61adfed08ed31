/** The circular buffer of c_buffer.c between the keyboard interrupt and sys_read. */
module Keyboard {

  const BUFFER_SIZE := 2048
  const EFAULT := 14

  // ---- the ring as a sequence ------------------------------------------

  type Cells = a: seq<char> | |a| == BUFFER_SIZE witness seq(BUFFER_SIZE, _ => ' ')

  /** The index i places after r. */
  function Place(r: int, i: int): int {
    if r + i < BUFFER_SIZE then r + i else r + i - BUFFER_SIZE
  }

  /** The n characters from index r on, around the end. */
  function View(a: Cells, r: int, n: int): (s: seq<char>)
    requires 0 <= r < BUFFER_SIZE && 0 <= n <= BUFFER_SIZE
    ensures |s| == n
  {
    seq(n, i requires 0 <= i < n => a[Place(r, i)])
  }

  lemma ViewAppend(a: Cells, r: int, n: int, c: char)
    requires 0 <= r < BUFFER_SIZE && 0 <= n < BUFFER_SIZE
    ensures View(a[Place(r, n) := c], r, n + 1) == View(a, r, n) + [c]
  {
  }

  lemma ViewDrop(a: Cells, r: int, n: int)
    requires 0 <= r < BUFFER_SIZE && 0 < n <= BUFFER_SIZE
    ensures View(a, r, n)[0] == a[r] && View(a, Place(r, 1), n - 1) == View(a, r, n)[1..]
  {
  }

  lemma PlaceIsModular(r: int, i: int)
    requires 0 <= r < BUFFER_SIZE && 0 <= i <= BUFFER_SIZE
    ensures Place(r, i) == (r + i) % BUFFER_SIZE
  {
  }

  class CircularBuffer {
    const buffer: array<char>
    var readIndex: int
    var writeIndex: int
    var count: int

    ghost predicate Valid()
      reads this
    {
      && buffer.Length == BUFFER_SIZE
      && 0 <= readIndex < BUFFER_SIZE && 0 <= writeIndex < BUFFER_SIZE && 0 <= count <= BUFFER_SIZE
      && writeIndex == Place(readIndex, count)
    }

    /** The buffered characters, oldest first. */
    ghost function Pending(): (s: seq<char>)
      requires Valid()
      reads this, buffer
      ensures |s| == count
    {
      View(buffer[..], readIndex, count)
    }

    /** init_buffer; the contents of the array are arbitrary. */
    constructor ()
      ensures Valid() && Pending() == [] && fresh(buffer)
    {
      buffer := new char[BUFFER_SIZE];
      readIndex, writeIndex, count := 0, 0, 0;
    }

    predicate IsFull()
      reads this
    {
      count == BUFFER_SIZE
    }

    predicate IsEmpty()
      reads this
    {
      count == 0
    }

    method Enqueue(element: char)
      requires Valid()
      modifies this`writeIndex, this`count, buffer
      ensures Valid()
      ensures Pending() == Accept(old(Pending()), element)
      ensures Pending() == if |old(Pending())| < 2048 then old(Pending()) + [element] else old(Pending())
    {
      if !IsFull() {
        ViewAppend(buffer[..], readIndex, count, element);
        ghost var cells := buffer[..][writeIndex := element];
        PlaceIsModular(writeIndex, 1);
        buffer[writeIndex] := element;
        assert buffer[..] == cells;
        writeIndex := (writeIndex + 1) % BUFFER_SIZE;
        count := count + 1;
      }
    }

    /** On an empty buffer the C code returns an address cut to a char. */
    method Dequeue() returns (data: char)
      requires Valid()
      modifies this`readIndex, this`count
      ensures Valid()
      ensures if old(Pending()) == [] then Pending() == []
        else data == old(Pending())[0] && Pending() == old(Pending())[1..]
    {
      data := *;
      if !IsEmpty() {
        ViewDrop(buffer[..], readIndex, count);
        PlaceIsModular(readIndex, 1);
        data := buffer[readIndex];
        readIndex := (readIndex + 1) % BUFFER_SIZE;
        count := count - 1;
      }
    }

    /** dequeue and copy_to_user of character i of `waiting`. */
    method ReadOne(b: array<char>, i: nat, ghost was: seq<char>, ghost waiting: seq<char>)
      requires Valid() && b != buffer && i < |waiting| && i < |was|
      requires Pending() == waiting[i..] && b[..] == Filled(was, waiting, i)
      modifies this`readIndex, this`count, b
      ensures Valid() && Pending() == waiting[i + 1..] && b[..] == Filled(was, waiting, i + 1)
    {
      FilledStep(was, waiting, i);
      var c := Dequeue();
      b[i] := c;
    }

    /** sys_read; `accessible` is the answer of access_ok for the user buffer. */
    method SysRead(b: array<char>, maxchars: int, accessible: bool) returns (r: int)
      requires Valid() && b != buffer && (accessible ==> Taken(Pending(), maxchars) <= b.Length)
      modifies this`readIndex, this`count, b
      ensures Valid()
      ensures !accessible ==> r == -EFAULT && Pending() == old(Pending()) && b[..] == old(b[..])
      ensures accessible ==> r == ReadCount(old(Pending()), maxchars)
      ensures accessible ==> b[..] == Filled(old(b[..]), old(Pending()), Taken(old(Pending()), maxchars))
      ensures accessible ==> Pending() == old(Pending())[Taken(old(Pending()), maxchars)..]
      ensures accessible && maxchars >= 0 ==>
        && 0 <= r <= maxchars && r <= |old(Pending())| && (r == maxchars || r == |old(Pending())|)
        && b[..r] == old(Pending())[..r] && b[r..] == old(b[..])[r..] && Pending() == old(Pending())[r..]
      ensures accessible && maxchars < 0 ==> r == maxchars && Pending() == old(Pending()) && b[..] == old(b[..])
    {
      ReadLaw(Pending(), maxchars);
      if !accessible {
        return -EFAULT;
      }
      var max := maxchars;
      if max > count {
        max := count;
      }
      ReadAll(b, max);
      return max;
    }

    /** The loop of sys_read. */
    method ReadAll(b: array<char>, max: int)
      requires Valid() && b != buffer && max <= |Pending()| && max <= b.Length
      modifies this`readIndex, this`count, b
      ensures Valid()
      ensures var n := if max < 0 then 0 else max;
        b[..] == Filled(old(b[..]), old(Pending()), n) && Pending() == old(Pending())[n..]
    {
      ghost var was, waiting := b[..], Pending();
      var i := 0;
      FilledStart(was, waiting);
      while i < max
        invariant 0 <= i <= |waiting| && (i <= max || i == 0) && i <= |was| && Valid()
        invariant Pending() == waiting[i..] && b[..] == Filled(was, waiting, i)
      {
        ReadOne(b, i, was, waiting);
        i := i + 1;
      }
    }
  }

  /** User buffer b after its first n characters were read from `waiting`. */
  function Filled(b: seq<char>, waiting: seq<char>, n: nat): (r: seq<char>)
    requires n <= |b| && n <= |waiting|
    ensures |r| == |b|
  {
    waiting[..n] + b[n..]
  }

  lemma FilledStart(b: seq<char>, waiting: seq<char>)
    ensures Filled(b, waiting, 0) == b && waiting[0..] == waiting
  {
  }

  lemma FilledStep(b: seq<char>, waiting: seq<char>, n: nat)
    requires n < |b| && n < |waiting|
    ensures Filled(b, waiting, n)[n := waiting[n]] == Filled(b, waiting, n + 1)
    ensures waiting[n..][0] == waiting[n] && waiting[n..][1..] == waiting[n + 1..]
  {
  }

  // ---- streams ---------------------------------------------------------

  /** A character is dropped only when BUFFER_SIZE of them wait. */
  function Accept(pending: seq<char>, c: char): seq<char> {
    if |pending| < BUFFER_SIZE then pending + [c] else pending
  }

  function ReadCount(pending: seq<char>, maxchars: int): int {
    if maxchars > |pending| then |pending| else maxchars
  }

  function Taken(pending: seq<char>, maxchars: int): (n: nat)
    ensures n <= |pending|
  {
    if ReadCount(pending, maxchars) < 0 then 0 else ReadCount(pending, maxchars)
  }

  /** A read takes what is asked for, or all there is; a negative size takes nothing and comes back. */
  lemma ReadLaw(pending: seq<char>, maxchars: int)
    ensures maxchars < 0 ==> ReadCount(pending, maxchars) == maxchars && Taken(pending, maxchars) == 0
    ensures 0 <= maxchars <= |pending| ==> ReadCount(pending, maxchars) == maxchars == Taken(pending, maxchars)
    ensures maxchars >= |pending| ==> ReadCount(pending, maxchars) == |pending| == Taken(pending, maxchars)
  {
  }

  datatype Event = Key(c: char) | Reads(maxchars: int)

  /** The buffer, all characters delivered so far, and all that were accepted. */
  datatype Stream = Stream(pending: seq<char>, delivered: seq<char>, accepted: seq<char>)

  function Step(s: Stream, e: Event): Stream {
    match e
    case Key(c) =>
      Stream(Accept(s.pending, c), s.delivered, if |s.pending| < BUFFER_SIZE then s.accepted + [c] else s.accepted)
    case Reads(m) =>
      var n := Taken(s.pending, m);
      s.(pending := s.pending[n..], delivered := s.delivered + s.pending[..n])
  }

  function Steps(s: Stream, evs: seq<Event>): Stream
    decreases |evs|
  {
    if evs == [] then s else Step(Steps(s, evs[..|evs| - 1]), evs[|evs| - 1])
  }

  /** A key waits, unless 2048 already do; a read delivers the oldest characters, as many as asked for or as
      wait, so one of at least what waits empties the buffer. */
  lemma StreamLaw(s: Stream, c: char, m: int)
    ensures |s.pending| < 2048 ==> Step(s, Key(c)) == Stream(s.pending + [c], s.delivered, s.accepted + [c])
    ensures |s.pending| >= 2048 ==> Step(s, Key(c)) == s
    ensures m < 0 ==> Step(s, Reads(m)) == s
    ensures 0 <= m <= |s.pending| ==> Step(s, Reads(m)) == Stream(s.pending[m..], s.delivered + s.pending[..m], s.accepted)
    ensures m >= |s.pending| ==> Step(s, Reads(m)) == Stream([], s.delivered + s.pending, s.accepted)
  {
    assert s.pending[0..] == s.pending && s.delivered + s.pending[..0] == s.delivered;
    assert s.pending[..|s.pending|] == s.pending && s.pending[|s.pending|..] == [];
  }

  /** What was delivered, followed by what waits, is what was accepted, in order. */
  lemma {:induction false} DeliveredInOrder(evs: seq<Event>)
    ensures var s := Steps(Stream([], [], []), evs);
      s.delivered + s.pending == s.accepted && |s.pending| <= BUFFER_SIZE
    decreases |evs|
  {
    if evs != [] {
      DeliveredInOrder(evs[..|evs| - 1]);
    }
  }

  /** The keys of a run, in order. */
  function Keys(evs: seq<Event>): seq<char>
    decreases |evs|
  {
    if evs == [] then []
    else Keys(evs[..|evs| - 1]) + match evs[|evs| - 1] case Key(c) => [c] case Reads(_) => []
  }

  /** No key arrived while the buffer was full. */
  predicate NeverFull(evs: seq<Event>)
    decreases |evs|
  {
    evs == [] ||
    (NeverFull(evs[..|evs| - 1])
     && (evs[|evs| - 1].Key? ==> |Steps(Stream([], [], []), evs[..|evs| - 1]).pending| < BUFFER_SIZE))
  }

  /** Every key is accepted if and only if none came to a full buffer. */
  lemma {:induction false} NothingLost(evs: seq<Event>)
    ensures Steps(Stream([], [], []), evs).accepted == Keys(evs) <==> NeverFull(evs)
    ensures |Steps(Stream([], [], []), evs).accepted| <= |Keys(evs)|
    decreases |evs|
  {
    if evs != [] {
      var rest := evs[..|evs| - 1];
      NothingLost(rest);
      var s := Steps(Stream([], [], []), rest);
      if evs[|evs| - 1].Key? && |s.pending| < BUFFER_SIZE {
        var c := evs[|evs| - 1].c;
        if s.accepted + [c] == Keys(rest) + [c] {
          assert (s.accepted + [c])[..|s.accepted|] == (Keys(rest) + [c])[..|Keys(rest)|];
        }
      }
    }
  }

  lemma StepsSnoc(s: Stream, evs: seq<Event>, i: nat)
    requires i < |evs|
    ensures Steps(s, evs[..i + 1]) == Step(Steps(s, evs[..i]), evs[i])
  {
    assert evs[..i + 1][..i] == evs[..i];
  }

  /** A read into a buffer of its own. */
  method Deliver(k: CircularBuffer, maxchars: int) returns (got: seq<char>)
    requires k.Valid()
    modifies k`readIndex, k`count
    ensures k.Valid()
    ensures var n := Taken(old(k.Pending()), maxchars); got == old(k.Pending())[..n] && k.Pending() == old(k.Pending())[n..]
  {
    var b := new char[if maxchars < 0 then 0 else maxchars](_ => ' ');
    var n := k.SysRead(b, maxchars, true);
    got := b[..if n < 0 then 0 else n];
  }

  /** The buffer of the kernel, driven by any events, delivers the stream of the model. */
  method Drive(evs: seq<Event>) returns (delivered: seq<char>, k: CircularBuffer)
    ensures k.Valid()
    ensures var s := Steps(Stream([], [], []), evs); delivered == s.delivered && k.Pending() == s.pending
  {
    k := new CircularBuffer();
    delivered := [];
    var i := 0;
    assert evs[..0] == [];
    while i < |evs|
      invariant i <= |evs| && k.Valid() && fresh(k) && fresh(k.buffer)
      invariant var s := Steps(Stream([], [], []), evs[..i]); delivered == s.delivered && k.Pending() == s.pending
    {
      StepsSnoc(Stream([], [], []), evs, i);
      match evs[i] {
        case Key(c) =>
          k.Enqueue(c);
        case Reads(m) =>
          var got := Deliver(k, m);
          delivered := delivered + got;
      }
      i := i + 1;
    }
    assert evs[..|evs|] == evs;
  }
}
