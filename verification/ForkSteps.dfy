/** The states sys_fork passes through inside its loops, as functions of the state before. */
module ForkSteps {
  import opened Common
  import opened Paging
  import opened AddressSpaces

  // ---- taking frames for the child -------------------------------------

  /** Table t with the first n data pages mapped to the frames of `pool`. */
  function Provisional(t: Table, pool: seq<Frame>, n: nat): (r: Table)
    requires n <= |pool| && n <= NUM_PAG_DATA
    ensures forall k :: 0 <= k < TOTAL_PAGES ==>
      r[k] == if PAG_LOG_INIT_DATA <= k < PAG_LOG_INIT_DATA + n then Mapped(pool[k - PAG_LOG_INIT_DATA]) else t[k]
  {
    if n == 0 then t else Provisional(t, pool, n - 1)[PAG_LOG_INIT_DATA + n - 1 := Mapped(pool[n - 1])]
  }

  /** After n successful calls of alloc_frame for child c. */
  function Taken(s: State, c: Slot, n: nat): State
    requires n <= |FreePool(s)| && n <= NUM_PAG_DATA
  {
    s.(phys := Mark(s.phys, FreePool(s)[..n]), pt := s.pt[c := Provisional(s.pt[c], FreePool(s), n)])
  }

  lemma TakenStart(s: State, c: Slot)
    ensures Taken(s, c, 0) == s
  {
    assert Mark(s.phys, []) == s.phys;
    assert Provisional(s.pt[c], FreePool(s), 0) == s.pt[c];
  }

  lemma TakenStep(s: State, c: Slot, n: nat)
    requires n <= |FreePool(s)| && n < NUM_PAG_DATA
    ensures FreePool(Taken(s, c, n)) == FreePool(s)[n..]
    ensures n < |FreePool(s)| ==>
      var t := Taken(s, c, n);
      var f := FreePool(s)[n];
      Taken(s, c, n + 1) == t.(phys := t.phys[f := USED_FRAME], pt := t.pt[c := t.pt[c][PAG_LOG_INIT_DATA + n := Mapped(f)]])
  {
    PoolAfterMark(s.phys, NUM_PAG_KERNEL, n);
    if n < |FreePool(s)| {
      var f := FreePool(s)[n];
      MarkSnoc(s.phys, FreePool(s)[..n], f);
      assert FreePool(s)[..n] + [f] == FreePool(s)[..n + 1];
      assert Provisional(s.pt[c], FreePool(s), n + 1) == Provisional(s.pt[c], FreePool(s), n)[PAG_LOG_INIT_DATA + n := Mapped(f)];
    }
  }

  // ---- giving them back ------------------------------------------------

  /** The counters when the first i of the taken frames were freed again. */
  function Rolling(phys: FrameCounts, i: nat): FrameCounts
    requires i <= |Pool(phys, NUM_PAG_KERNEL)|
  {
    var pool := Pool(phys, NUM_PAG_KERNEL);
    seq(TOTAL_PAGES, f requires 0 <= f < TOTAL_PAGES =>
      if f in pool[i..] || (f == NUM_PAG_KERNEL && f in pool) then USED_FRAME else phys[f])
  }

  /** After the rollback undid the first i pages of child c. */
  function GivenBack(s: State, c: Slot, i: nat): State
    requires i <= |FreePool(s)| <= NUM_PAG_DATA
  {
    s.(phys := Rolling(s.phys, i), pt := s.pt[c := Unmapped(Provisional(s.pt[c], FreePool(s), |FreePool(s)|), i)])
  }

  lemma GivenBackStart(s: State, c: Slot)
    requires |FreePool(s)| <= NUM_PAG_DATA
    ensures GivenBack(s, c, 0) == Taken(s, c, |FreePool(s)|)
  {
    var pool := FreePool(s);
    assert pool[0..] == pool[..|pool|] == pool;
    assert Rolling(s.phys, 0) == Mark(s.phys, pool);
    var t := Provisional(s.pt[c], pool, |pool|);
    assert Unmapped(t, 0) == t;
  }

  lemma RollingStep(phys: FrameCounts, i: nat)
    requires i < |Pool(phys, NUM_PAG_KERNEL)|
    ensures var f := Pool(phys, NUM_PAG_KERNEL)[i];
      Rolling(phys, i + 1) == if f > NUM_PAG_KERNEL then Rolling(phys, i)[f := FREE_FRAME] else Rolling(phys, i)
  {
    var pool := Pool(phys, NUM_PAG_KERNEL);
    var f := pool[i];
    PoolMembers(phys, NUM_PAG_KERNEL, f);
    assert pool[i..] == [f] + pool[i + 1..];
    forall j | i + 1 <= j < |pool| ensures pool[j] != f {
      PoolAscends(phys, NUM_PAG_KERNEL, i, j);
    }
    assert f !in pool[i + 1..];
  }

  lemma GivenBackStep(s: State, c: Slot, i: nat)
    requires i < |FreePool(s)| <= NUM_PAG_DATA
    ensures var t := GivenBack(s, c, i);
      var f := t.pt[c][PAG_LOG_INIT_DATA + i].frame;
      GivenBack(s, c, i + 1) ==
        t.(phys := if f > NUM_PAG_KERNEL then t.phys[f := FREE_FRAME] else t.phys,
           pt := t.pt[c := t.pt[c][PAG_LOG_INIT_DATA + i := NO_ENTRY]])
  {
    RollingStep(s.phys, i);
    var t := Provisional(s.pt[c], FreePool(s), |FreePool(s)|);
    assert Unmapped(t, i + 1) == Unmapped(t, i)[PAG_LOG_INIT_DATA + i := NO_ENTRY];
  }

  lemma GivenBackEnd(s: State, c: Slot)
    requires |FreePool(s)| <= NUM_PAG_DATA
    ensures GivenBack(s, c, |FreePool(s)|) ==
      s.(phys := RolledBack(s.phys), pt := s.pt[c := Unmapped(s.pt[c], |FreePool(s)|)])
  {
    PoolMembers(s.phys, NUM_PAG_KERNEL, NUM_PAG_KERNEL);
    assert Rolling(s.phys, |FreePool(s)|) == RolledBack(s.phys);
    assert Unmapped(Provisional(s.pt[c], FreePool(s), |FreePool(s)|), |FreePool(s)|) == Unmapped(s.pt[c], |FreePool(s)|);
  }

  // ---- sharing the parent's pages --------------------------------------

  /** The pages below n come from `done`, the others from `start`. */
  function Upto(done: Table, start: Table, n: nat): Table {
    seq(TOTAL_PAGES, k requires 0 <= k < TOTAL_PAGES => if k < n then done[k] else start[k])
  }

  /** How many data pages lie below page n. */
  function DataBelow(n: nat): (r: nat)
    ensures r <= NUM_PAG_DATA
  {
    if n <= PAG_LOG_INIT_DATA then 0 else if n <= PAG_LOG_SHARED then n - PAG_LOG_INIT_DATA else NUM_PAG_DATA
  }

  /** After the loops have handled the pages below n; s is the state before the fork. */
  function Sharing(s: State, p: Slot, c: Slot, n: nat): State
    requires |FreePool(s)| >= NUM_PAG_DATA && n <= TOTAL_PAGES
  {
    var t := Taken(s, c, NUM_PAG_DATA);
    State(Bump(t.phys, DataFrames(s.pt[p])[..DataBelow(n)]),
          s.pt[c := Upto(ShareTable(s.pt[p], s.pt[c]), t.pt[c], n)][p := Upto(DenyWrites(s.pt[p]), s.pt[p], n)],
          s.ram, Inherit(s.shm, s.pt[p], n), s.free)
  }

  lemma SharingStart(s: State, p: Slot, c: Slot)
    requires |FreePool(s)| >= NUM_PAG_DATA && p != c
    ensures Sharing(s, p, c, 0) == Taken(s, c, NUM_PAG_DATA)
  {
    var t := Taken(s, c, NUM_PAG_DATA);
    assert DataFrames(s.pt[p])[..0] == [];
    assert Upto(DenyWrites(s.pt[p]), s.pt[p], 0) == s.pt[p];
    assert Upto(ShareTable(s.pt[p], s.pt[c]), t.pt[c], 0) == t.pt[c];
    InheritNothing(s.shm, s.pt[p], 0);
    assert t.pt == s.pt[c := t.pt[c]][p := s.pt[p]];
  }

  lemma InheritNothing(shm: Regions, t: Table, n: nat)
    requires n <= PAG_LOG_SHARED
    ensures Inherit(shm, t, n) == shm
  {
    assert forall f: Frame :: Attached(t, f, n) == {};
  }

  lemma UptoStep(done: Table, start: Table, n: nat)
    requires n < TOTAL_PAGES
    ensures Upto(done, start, n + 1) == Upto(done, start, n)[n := done[n]]
  {
  }

  lemma SharingTables(s: State, p: Slot, c: Slot, n: nat)
    requires |FreePool(s)| >= NUM_PAG_DATA && n < TOTAL_PAGES && p != c
    ensures var t := Sharing(s, p, c, n);
      && t.pt[p][n] == s.pt[p][n]
      && t.pt[c][n] == Taken(s, c, NUM_PAG_DATA).pt[c][n]
      && Sharing(s, p, c, n + 1).pt ==
           t.pt[c := t.pt[c][n := ShareTable(s.pt[p], s.pt[c])[n]]][p := t.pt[p][n := DenyWrites(s.pt[p])[n]]]
  {
    UptoStep(ShareTable(s.pt[p], s.pt[c]), Taken(s, c, NUM_PAG_DATA).pt[c], n);
    UptoStep(DenyWrites(s.pt[p]), s.pt[p], n);
  }

  /** Kernel and code pages. */
  lemma SharingCode(s: State, p: Slot, c: Slot, n: nat)
    requires |FreePool(s)| >= NUM_PAG_DATA && n < PAG_LOG_INIT_DATA && p != c
    ensures var t := Sharing(s, p, c, n);
      Sharing(s, p, c, n + 1) == t.(pt := t.pt[c := t.pt[c][n := Mapped(t.pt[p][n].frame)]])
  {
    SharingTables(s, p, c, n);
    InheritNothing(s.shm, s.pt[p], n);
    InheritNothing(s.shm, s.pt[p], n + 1);
    var t := Sharing(s, p, c, n);
    assert t.pt[p][n := DenyWrites(s.pt[p])[n]] == t.pt[p];
  }

  lemma SharingData(s: State, p: Slot, c: Slot, n: nat)
    requires |FreePool(s)| >= NUM_PAG_DATA && IsData(n) && p != c
    ensures var t := Sharing(s, p, c, n);
      var f := t.pt[p][n].frame;
      Sharing(s, p, c, n + 1) ==
        t.(phys := t.phys[f := Incremented(t.phys[f])],
           pt := t.pt[c := t.pt[c][n := Mapped(f).(rw := false)]][p := t.pt[p][n := t.pt[p][n].(rw := false)]])
  {
    SharingTables(s, p, c, n);
    InheritNothing(s.shm, s.pt[p], n);
    InheritNothing(s.shm, s.pt[p], n + 1);
    var fs := DataFrames(s.pt[p]);
    var d := n - PAG_LOG_INIT_DATA;
    assert fs[..d + 1][..d] == fs[..d];
  }

  /** The first i regions of a, the others of b. */
  function Mixed(a: Regions, b: Regions, i: nat): Regions {
    seq(NUM_REGIONS, j requires 0 <= j < NUM_REGIONS => if j < i then a[j] else b[j])
  }

  /** The regions when the first i saw page n of the parent and the others did not. */
  function InheritPart(shm: Regions, t: Table, n: nat, i: nat): Regions {
    Mixed(Inherit(shm, t, n + 1), Inherit(shm, t, n), i)
  }

  lemma AttachedStep(t: Table, f: Frame, n: nat)
    requires IsShared(n)
    ensures |Attached(t, f, n + 1)| == |Attached(t, f, n)| + if t[n].frame == f then 1 else 0
  {
    assert Attached(t, f, n + 1) == Attached(t, f, n) + if t[n].frame == f then {n} else {};
    assert n !in Attached(t, f, n);
  }

  lemma InheritStep(shm: Regions, t: Table, n: nat, i: nat)
    requires IsShared(n) && i < NUM_REGIONS && t[n].frame != 0
    ensures var r := InheritPart(shm, t, n, i);
      r[i].frame == shm[i].frame
      && InheritPart(shm, t, n, i + 1) == if shm[i].frame == t[n].frame then r[i := r[i].(refs := r[i].refs + 1)] else r
  {
    AttachedStep(t, shm[i].frame, n);
  }

  lemma InheritEnds(shm: Regions, t: Table, n: nat)
    requires IsShared(n)
    ensures InheritPart(shm, t, n, 0) == Inherit(shm, t, n)
    ensures InheritPart(shm, t, n, NUM_REGIONS) == Inherit(shm, t, n + 1)
    ensures t[n].frame == 0 ==> Inherit(shm, t, n + 1) == Inherit(shm, t, n)
  {
    forall i | 0 <= i < NUM_REGIONS ensures t[n].frame == 0 ==> Inherit(shm, t, n + 1)[i] == Inherit(shm, t, n)[i] {
      AttachedStep(t, shm[i].frame, n);
    }
  }

  lemma SharingShared(s: State, p: Slot, c: Slot, n: nat)
    requires |FreePool(s)| >= NUM_PAG_DATA && IsShared(n) && p != c
    ensures var t := Sharing(s, p, c, n);
      var f := t.pt[p][n].frame;
      Sharing(s, p, c, n + 1) ==
        t.(pt := if f != 0 then t.pt[c := t.pt[c][n := Mapped(f)]] else t.pt, shm := Inherit(s.shm, s.pt[p], n + 1))
  {
    SharingTables(s, p, c, n);
    var t := Sharing(s, p, c, n);
    assert t.pt[p][n := DenyWrites(s.pt[p])[n]] == t.pt[p];
    assert t.pt[c][n := t.pt[c][n]] == t.pt[c];
    assert t.pt[c := t.pt[c]] == t.pt;
  }

  lemma SharingEnd(s: State, p: Slot, c: Slot)
    requires |FreePool(s)| >= NUM_PAG_DATA && p != c
    ensures Sharing(s, p, c, TOTAL_PAGES) ==
      State(Bump(Mark(s.phys, FreePool(s)[..NUM_PAG_DATA]), DataFrames(s.pt[p])),
            s.pt[c := ShareTable(s.pt[p], s.pt[c])][p := DenyWrites(s.pt[p])],
            s.ram, Inherit(s.shm, s.pt[p], TOTAL_PAGES), s.free)
  {
    assert DataFrames(s.pt[p])[..NUM_PAG_DATA] == DataFrames(s.pt[p]);
    assert Upto(ShareTable(s.pt[p], s.pt[c]), Taken(s, c, NUM_PAG_DATA).pt[c], TOTAL_PAGES) == ShareTable(s.pt[p], s.pt[c]);
    assert Upto(DenyWrites(s.pt[p]), s.pt[p], TOTAL_PAGES) == DenyWrites(s.pt[p]);
  }
}
