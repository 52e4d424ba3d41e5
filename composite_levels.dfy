/**
  Shared vocabulary of the AMG-DD solve cycle: the per-level composite-grid
  vectors (one sequence of values per coarsening level), loop trip counts, and sums of
  per-level counts.
 */
module CompositeLevels {

  /** Number of iterations of `for (i = 0; i < n; i++)`: a negative bound runs none. */
  function TripCount(n: int): nat
  {
    if n < 0 then 0 else n
  }

  /** Number of buffer entries used by levels [lo, hi): the sum of their trip counts. */
  function Offset(counts: seq<int>, lo: nat, hi: nat): nat
    requires hi <= |counts|
    decreases hi
  {
    if hi <= lo then 0 else Offset(counts, lo, hi - 1) + TripCount(counts[hi - 1])
  }

  lemma {:induction false} OffsetMonotone(counts: seq<int>, lo: nat, mid: nat, hi: nat)
    requires mid <= hi <= |counts|
    ensures Offset(counts, lo, mid) <= Offset(counts, lo, hi)
    decreases hi
  {
    if mid < hi {
      OffsetMonotone(counts, lo, mid, hi - 1);
    }
  }

  /** Two count lists that run the same number of iterations on every level use the same buffer length. */
  lemma {:induction false} OffsetAgrees(a: seq<int>, b: seq<int>, lo: nat, hi: nat)
    requires hi <= |a| && hi <= |b|
    requires forall L :: lo <= L < hi ==> TripCount(a[L]) == TripCount(b[L])
    ensures Offset(a, lo, hi) == Offset(b, lo, hi)
    decreases hi
  {
    if lo < hi {
      OffsetAgrees(a, b, lo, hi - 1);
    }
  }

  /** Sum of the first p entries: the displacement of process p in a gathered buffer. */
  function PrefixSum(counts: seq<int>, p: nat): int
    requires p <= |counts|
  {
    if p == 0 then 0 else PrefixSum(counts, p - 1) + counts[p - 1]
  }

  /** The transition level as the solve cycle uses it: a negative setting means "no transition". */
  function EffectiveTransitionLevel(transitionLevel: int, numLevels: nat): (t: nat)
    requires transitionLevel <= numLevels
    ensures t <= numLevels
  {
    if transitionLevel < 0 then numLevels else transitionLevel
  }

  /**
    The levels below the effective transition level are the levels below the
    transition level when one is set, and all levels otherwise.
   */
  lemma LevelsBelowTransition(transitionLevel: int, numLevels: nat, l: nat)
    requires transitionLevel <= numLevels
    ensures l < EffectiveTransitionLevel(transitionLevel, numLevels) <==>
              l < numLevels && (transitionLevel < 0 || l < transitionLevel)
  {
  }

  /**
    The agglomeration sub-communicator stored for a level, as seen from this
    process: none, or this process's rank within a group of `size` processes.
   */
  datatype LocalComm = NoComm | Comm(rank: nat, size: nat)
  {
    predicate WellFormed() { Comm? ==> rank < size }
  }
}
