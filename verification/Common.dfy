/** What several parts of the kernel share. */
module Common {

  const NR_TASKS := 10
  const TWO32 := 0x1_0000_0000

  /** The number of a task structure. */
  type Slot = p: int | 0 <= p < NR_TASKS

  /** The C type `unsigned long`. */
  type Word = w: int | 0 <= w < TWO32

  ghost predicate Distinct<T>(q: seq<T>) {
    forall i, j :: 0 <= i < j < |q| ==> q[i] != q[j]
  }
}
