/** copy_data of utils.c: four bytes at a time while more than four are left, then one at a time. */
module CopyData {
  import opened Paging

  /** Memory m with the n bytes at s moved to d at once. */
  function Moved(m: seq<Byte>, s: nat, d: nat, n: nat): (r: seq<Byte>)
    requires s + n <= |m| && d + n <= |m|
    ensures |r| == |m|
  {
    seq(|m|, i requires 0 <= i < |m| => if d <= i < d + n then m[s + (i - d)] else m[i])
  }

  function Unit(size: int): nat { if size > 4 then 4 else 1 }

  /** What the two loops do, whatever the ranges. */
  function Copied(m: seq<Byte>, s: nat, d: nat, size: int): (r: seq<Byte>)
    requires s + size <= |m| && d + size <= |m|
    ensures |r| == |m|
    decreases size
  {
    if size <= 0 then m
    else Copied(Moved(m, s, d, Unit(size)), s + Unit(size), d + Unit(size), size - Unit(size))
  }

  /** `left` bytes from p to q are still to be copied to turn m into `goal`. */
  ghost predicate Remaining(m: seq<Byte>, p: nat, q: nat, left: int, goal: seq<Byte>) {
    p + left <= |m| && q + left <= |m| && Copied(m, p, q, left) == goal
  }

  lemma Advance(m: seq<Byte>, p: nat, q: nat, left: int, goal: seq<Byte>, u: nat, m': seq<Byte>)
    requires Remaining(m, p, q, left, goal) && left > 0 && u == Unit(left) && m' == Moved(m, p, q, u)
    ensures Remaining(m', p + u, q + u, left - u, goal)
  {
  }

  lemma Done(m: seq<Byte>, p: nat, q: nat, left: int, goal: seq<Byte>)
    requires Remaining(m, p, q, left, goal) && left <= 0
    ensures m == goal
  {
  }

  /** `*q = *p` on a DWord. */
  method MoveWord(mem: array<Byte>, p: nat, q: nat, ghost left: int, ghost goal: seq<Byte>)
    requires left > 4 && Remaining(mem[..], p, q, left, goal)
    modifies mem
    ensures Remaining(mem[..], p + 4, q + 4, left - 4, goal)
  {
    ghost var m := mem[..];
    mem[q], mem[q + 1], mem[q + 2], mem[q + 3] := mem[p], mem[p + 1], mem[p + 2], mem[p + 3];
    assert mem[..] == Moved(m, p, q, 4);
    Advance(m, p, q, left, goal, 4, mem[..]);
  }

  method MoveByte(mem: array<Byte>, p: nat, q: nat, ghost left: int, ghost goal: seq<Byte>)
    requires 0 < left <= 4 && Remaining(mem[..], p, q, left, goal)
    modifies mem
    ensures Remaining(mem[..], p + 1, q + 1, left - 1, goal)
  {
    ghost var m := mem[..];
    mem[q] := mem[p];
    assert mem[..] == Moved(m, p, q, 1);
    Advance(m, p, q, left, goal, 1, mem[..]);
  }

  method CopyData(mem: array<Byte>, start: nat, dest: nat, size: int)
    requires start + size <= mem.Length && dest + size <= mem.Length
    modifies mem
    ensures mem[..] == Copied(old(mem[..]), start, dest, size)
  {
    ghost var goal := Copied(mem[..], start, dest, size);
    var p, q, left := start, dest, size;
    assert Remaining(mem[..], p, q, left, goal);
    while left > 4
      invariant Remaining(mem[..], p, q, left, goal)
    {
      MoveWord(mem, p, q, left, goal);
      p, q, left := p + 4, q + 4, left - 4;
    }
    while left > 0
      invariant left <= 4 && Remaining(mem[..], p, q, left, goal)
    {
      MoveByte(mem, p, q, left, goal);
      p, q, left := p + 1, q + 1, left - 1;
    }
    Done(mem[..], p, q, left, goal);
  }

  /** Bytes outside the destination keep their values. */
  lemma {:induction false} CopiedOutside(m: seq<Byte>, s: nat, d: nat, size: int, i: nat)
    requires s + size <= |m| && d + size <= |m| && i < |m|
    requires i < d || i >= d + size
    ensures Copied(m, s, d, size)[i] == m[i]
    decreases size
  {
    if size > 0 {
      CopiedOutside(Moved(m, s, d, Unit(size)), s + Unit(size), d + Unit(size), size - Unit(size), i);
    }
  }

  /** Ranges that do not overlap, or overlap with the destination below, are copied exactly. */
  lemma {:induction false} CopiedInside(m: seq<Byte>, s: nat, d: nat, size: int, j: nat)
    requires s + size <= |m| && d + size <= |m| && j < size
    requires d <= s || s + size <= d
    ensures Copied(m, s, d, size)[d + j] == m[s + j]
    decreases size
  {
    var u := Unit(size);
    var m' := Moved(m, s, d, u);
    if j < u {
      CopiedOutside(m', s + u, d + u, size - u, d + j);
    } else {
      CopiedInside(m', s + u, d + u, size - u, j - u);
      assert m'[s + j] == m[s + j];
    }
  }

  /** Copying forward over itself repeats what lies between s and d. */
  lemma {:induction false} CopiedRepeats(m: seq<Byte>, s: nat, d: nat, size: int, j: nat)
    requires s + size <= |m| && d + size <= |m| && j < size
    requires s + Unit(size) <= d
    ensures Copied(m, s, d, size)[d + j] == Copied(m, s, d, size)[s + j]
    decreases size
  {
    var u := Unit(size);
    var m' := Moved(m, s, d, u);
    if j < u {
      CopiedOutside(m', s + u, d + u, size - u, d + j);
      CopiedOutside(m', s + u, d + u, size - u, s + j);
    } else {
      CopiedRepeats(m', s + u, d + u, size - u, j - u);
    }
  }

  /** The bytes a copy must produce. */
  ghost predicate ExactCopy(m: seq<Byte>, s: nat, d: nat, size: nat)
    requires s + size <= |m| && d + size <= |m|
  {
    Copied(m, s, d, size) == Moved(m, s, d, size)
  }

  lemma CopiesExactly(m: seq<Byte>, s: nat, d: nat, size: nat)
    requires s + size <= |m| && d + size <= |m|
    requires d <= s || s + size <= d
    ensures ExactCopy(m, s, d, size)
  {
    forall i | 0 <= i < |m| ensures Copied(m, s, d, size)[i] == Moved(m, s, d, size)[i] {
      if d <= i < d + size {
        CopiedInside(m, s, d, size, i - d);
      } else {
        CopiedOutside(m, s, d, size, i);
      }
    }
  }

  /** What a copy leaves, when its ranges do not overlap forward. */
  lemma CopyMoves(m: seq<Byte>, copied: seq<Byte>, s: nat, d: nat, size: nat)
    requires s + size <= |m| && d + size <= |m|
    requires copied == Copied(m, s, d, size) && (d <= s || s + size <= d)
    ensures copied == Moved(m, s, d, size)
  {
    CopiesExactly(m, s, d, size);
  }

  /** A memory that holds 1 at `at` and 0 elsewhere. */
  function Spike(len: nat, at: nat): seq<Byte> {
    seq<Byte>(len, i => if i == at then 1 else 0)
  }

  /** A spike at the start of the source comes back at distance d - s. */
  lemma FarOverlapSpoils(m: seq<Byte>, s: nat, d: nat, size: nat)
    requires s + size <= |m| && d + size <= |m| && s + Unit(size) <= d < s + size
    requires m[s] != m[d]
    ensures !ExactCopy(m, s, d, size)
  {
    var k := d - s;
    CopiedRepeats(m, s, d, size, k);
    CopiedRepeats(m, s, d, size, 0);
    CopiedOutside(m, s, d, size, s);
    assert Moved(m, s, d, size)[d + k] == m[d];
  }

  /** The first four bytes overwrite the fifth before it is read. */
  lemma NearOverlapSpoils(m: seq<Byte>, s: nat, d: nat, size: nat)
    requires s + size <= |m| && d + size <= |m| && s < d < s + 4 < s + size
    requires m[s + 4] != m[s + 4 - (d - s)]
    ensures !ExactCopy(m, s, d, size)
  {
    NearFifth(m, s, d, size);
    assert Moved(m, s, d, size)[d + 4] == m[s + 4];
  }

  lemma NearFifth(m: seq<Byte>, s: nat, d: nat, size: nat)
    requires s + size <= |m| && d + size <= |m| && s < d < s + 4 < s + size
    ensures Copied(m, s, d, size)[d + 4] == m[s + 4 - (d - s)]
  {
    CopiedFirst(Moved(m, s, d, 4), s + 4, d + 4, size - 4);
  }

  lemma CopiedFirst(m: seq<Byte>, s: nat, d: nat, size: int)
    requires s + size <= |m| && d + size <= |m| && size > 0
    ensures Copied(m, s, d, size)[d] == m[s]
  {
    CopiedOutside(Moved(m, s, d, Unit(size)), s + Unit(size), d + Unit(size), size - Unit(size), d);
  }

  /** copy_data is exact on every memory if and only if the destination does not start inside
      the source range after its first byte. */
  lemma ExactIffNoForwardOverlap(len: nat, s: nat, d: nat, size: nat)
    requires s + size <= len && d + size <= len
    ensures (forall m: seq<Byte> :: |m| == len ==> ExactCopy(m, s, d, size)) <==> (d <= s || s + size <= d)
  {
    if d <= s || s + size <= d {
      forall m: seq<Byte> | |m| == len ensures ExactCopy(m, s, d, size) {
        CopiesExactly(m, s, d, size);
      }
    } else {
      if s + Unit(size) <= d {
        FarOverlapSpoils(Spike(len, s), s, d, size);
        assert |Spike(len, s)| == len;
      } else {
        NearOverlapSpoils(Spike(len, s + 4), s, d, size);
        assert |Spike(len, s + 4)| == len;
      }
    }
  }
}
