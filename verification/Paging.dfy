/** The frame pool and the page-table entries of mm.c.

    Frame numbers stay below TOTAL_PAGES: every frame that reaches a page table comes
    from the identity map of the kernel, from alloc_frame, or from another entry. */
module Paging {

  const TOTAL_PAGES := 1024
  const NUM_PAG_KERNEL := 256
  const NUM_PAG_CODE := 8
  const NUM_PAG_DATA := 20
  const PAG_LOG_INIT_CODE := 256
  const PAG_LOG_INIT_DATA := 264
  const PAG_LOG_SHARED := 284
  const PAGE_SIZE := 4096
  const NUM_REGIONS := 10
  /** alloc_frame gives the first frames to the code of task 1. */
  const FIRST_DATA_FRAME := NUM_PAG_KERNEL + 2 * NUM_PAG_CODE
  const FREE_FRAME := 0
  const USED_FRAME := 1

  /** The C type `unsigned char`. */
  type Byte = x: int | 0 <= x < 256
  type Frame = f: int | 0 <= f < TOTAL_PAGES
  type Page = b: seq<Byte> | |b| == PAGE_SIZE witness seq(PAGE_SIZE, _ => 0)
  const ZERO_PAGE: Page := seq(PAGE_SIZE, _ => 0)
  /** phys_mem: one use counter per frame. */
  type FrameCounts = c: seq<Byte> | |c| == TOTAL_PAGES witness seq(TOTAL_PAGES, _ => 0)

  datatype Entry = Entry(frame: Frame, user: bool, rw: bool, present: bool)

  const NO_ENTRY := Entry(0, false, false, false)

  type Table = t: seq<Entry> | |t| == TOTAL_PAGES witness seq(TOTAL_PAGES, _ => NO_ENTRY)
  const EMPTY_TABLE: Table := seq(TOTAL_PAGES, _ => NO_ENTRY)

  /** The entry written by set_ss_pag. */
  function Mapped(frame: Frame): Entry {
    Entry(frame, true, true, true)
  }

  /** The frames alloc_frame can still hand out from frame i on, in the order it does. */
  function Pool(phys: FrameCounts, i: nat): (r: seq<Frame>)
    decreases TOTAL_PAGES - i
  {
    if i >= TOTAL_PAGES then []
    else if phys[i] == FREE_FRAME then [i] + Pool(phys, i + 2)
    else Pool(phys, i + 2)
  }

  /** `phys` with every frame of `fs` marked as used. */
  function Mark(phys: FrameCounts, fs: seq<Frame>): FrameCounts {
    seq(TOTAL_PAGES, f requires 0 <= f < TOTAL_PAGES => if f in fs then USED_FRAME else phys[f])
  }

  lemma {:induction false} PoolMembers(phys: FrameCounts, i: nat, f: Frame)
    ensures f in Pool(phys, i) <==> i <= f && (f - i) % 2 == 0 && phys[f] == FREE_FRAME
    decreases TOTAL_PAGES - i
  {
    if i < TOTAL_PAGES {
      PoolMembers(phys, i + 2, f);
    }
  }

  lemma {:induction false} PoolAscends(phys: FrameCounts, i: nat, a: nat, b: nat)
    requires a < b < |Pool(phys, i)|
    ensures Pool(phys, i)[a] < Pool(phys, i)[b]
    decreases TOTAL_PAGES - i
  {
    if phys[i] != FREE_FRAME {
      PoolAscends(phys, i + 2, a, b);
    } else if a > 0 {
      PoolAscends(phys, i + 2, a - 1, b - 1);
    } else {
      PoolMembers(phys, i + 2, Pool(phys, i + 2)[b - 1]);
    }
  }

  lemma {:induction false} PoolDependsOnFree(a: FrameCounts, b: FrameCounts, i: nat)
    requires forall f: Frame :: i <= f ==> (a[f] == FREE_FRAME <==> b[f] == FREE_FRAME)
    ensures Pool(a, i) == Pool(b, i)
    decreases TOTAL_PAGES - i
  {
    if i < TOTAL_PAGES {
      PoolDependsOnFree(a, b, i + 2);
    }
  }

  /** Using the first pool frame leaves the rest of the pool. */
  lemma {:induction false} PoolAfterTake(phys: FrameCounts, i: nat)
    requires Pool(phys, i) != []
    ensures Pool(phys[Pool(phys, i)[0] := USED_FRAME], i) == Pool(phys, i)[1..]
    decreases TOTAL_PAGES - i
  {
    var f := Pool(phys, i)[0];
    if phys[i] == FREE_FRAME {
      PoolDependsOnFree(phys, phys[f := USED_FRAME], i + 2);
    } else {
      PoolAfterTake(phys, i + 2);
      PoolMembers(phys, i + 2, f);
    }
  }

  lemma {:induction false} PoolAfterMark(phys: FrameCounts, i: nat, n: nat)
    requires n <= |Pool(phys, i)|
    ensures Pool(Mark(phys, Pool(phys, i)[..n]), i) == Pool(phys, i)[n..]
    decreases n
  {
    var pool := Pool(phys, i);
    if n == 0 {
      assert Mark(phys, []) == phys;
    } else {
      PoolAfterMark(phys, i, n - 1);
      var before := Mark(phys, pool[..n - 1]);
      MarkSnoc(phys, pool[..n - 1], pool[n - 1]);
      assert pool[..n - 1] + [pool[n - 1]] == pool[..n];
      assert Pool(before, i)[0] == pool[n - 1];
      PoolAfterTake(before, i);
      assert pool[n - 1..][1..] == pool[n..];
    }
  }

  lemma MarkSnoc(phys: FrameCounts, fs: seq<Frame>, f: Frame)
    ensures Mark(phys, fs + [f]) == Mark(phys, fs)[f := USED_FRAME]
  {
    assert forall g: Frame :: g in fs + [f] <==> g in fs || g == f;
  }

  /** When every frame from i on is free the pool is every second frame. */
  lemma {:induction false} PoolOfFresh(phys: FrameCounts, i: nat)
    requires i <= TOTAL_PAGES && i % 2 == 0
    requires forall f: Frame :: i <= f ==> phys[f] == FREE_FRAME
    ensures |Pool(phys, i)| == (TOTAL_PAGES - i) / 2
    ensures forall j :: 0 <= j < |Pool(phys, i)| ==> Pool(phys, i)[j] == i + 2 * j
    decreases TOTAL_PAGES - i
  {
    if i < TOTAL_PAGES {
      PoolOfFresh(phys, i + 2);
    }
  }
}
