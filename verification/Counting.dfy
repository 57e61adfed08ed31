/** Cardinalities of finite sets. */
module Counting {
  import opened Common

  /** The n integers from lo on. */
  ghost function Interval(lo: int, n: nat): (r: set<int>)
    ensures |r| == n
    ensures forall x :: x in r <==> lo <= x < lo + n
  {
    if n == 0 then {} else Interval(lo, n - 1) + {lo + n - 1}
  }

  lemma {:induction false} SubsetSize<T>(a: set<T>, b: set<T>)
    requires a <= b
    ensures |a| <= |b|
  {
    if a != {} {
      var x :| x in a;
      SubsetSize(a - {x}, b - {x});
    }
  }

  lemma {:induction false} SeqSetSize<T>(q: seq<T>)
    requires Distinct(q)
    ensures |set x | x in q| == |q|
  {
    if q == [] {
      assert (set x | x in q) == {};
    } else {
      var r := q[..|q| - 1];
      SeqSetSize(r);
      assert q == r + [q[|q| - 1]];
      assert (set x | x in q) == (set x | x in r) + {q[|q| - 1]};
    }
  }

  lemma BoundedSize(a: set<int>, lo: int, n: nat)
    requires forall x :: x in a ==> lo <= x < lo + n
    ensures |a| <= n
  {
    SubsetSize(a, Interval(lo, n));
  }

  lemma SplitSize(a: set<int>, b: set<int>, lo: int, n: nat)
    requires a !! b
    requires forall x :: x in a || x in b <==> lo <= x < lo + n
    ensures |a| + |b| == n
  {
    assert a + b == Interval(lo, n);
  }

  /** Pairs that agree on the second component are as many as their first components. */
  lemma {:induction false} ColumnSize(a: set<(int, int)>, lo: int, n: nat, k: int)
    requires forall x :: x in a ==> lo <= x.0 < lo + n && x.1 == k
    ensures |a| <= n
    decreases n
  {
    if n == 0 {
      assert a == {};
    } else {
      ColumnSize(a - {(lo + n - 1, k)}, lo, n - 1, k);
    }
  }

  lemma Member<T>(ks: set<T>) returns (k: T)
    requires ks != {}
    ensures k in ks
  {
    k :| k in ks;
  }

  /** Pairs that agree on the first component are as many as their second components. */
  lemma {:induction false} RowSize(a: set<(int, int)>, p: int, ks: set<int>)
    requires forall x :: x in a ==> x.0 == p && x.1 in ks
    requires forall k :: k in ks ==> (p, k) in a
    ensures |a| == |ks|
    decreases |ks|
  {
    if ks != {} {
      var k := Member(ks);
      RowSize(a - {(p, k)}, p, ks - {k});
    } else if a != {} {
      var x := Member(a);
      assert false;
    }
  }
}
