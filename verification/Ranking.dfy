/** Objects a LocHeap can hold, and the rank that LocTimerDelegate gives them. */
module Ranking {

  /** struct timespec */
  datatype Timespec = Timespec(sec: int, nsec: int)

  /** An object in a heap: its address and its deadline. Equal values are the same object. */
  datatype Rankable = Rankable(addr: nat, due: Timespec)

  /** Positive when a ranks higher than b. A later tv_sec ranks lower; tv_nsec plays no part. */
  function Ranks(a: Rankable, b: Rankable): int {
    b.due.sec - a.due.sec
  }

  predicate OutRanks(a: Rankable, b: Rankable) {
    Ranks(a, b) > 0
  }

  /** The full order of two times, the one the kernel timer uses. */
  predicate NoLater(a: Timespec, b: Timespec) {
    a.sec < b.sec || (a.sec == b.sec && a.nsec <= b.nsec)
  }
}
