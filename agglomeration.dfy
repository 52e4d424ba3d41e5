/**
  Bookkeeping of the local all-gather among agglomerated processes.  A
  level holding an agglomeration sub-communicator starts a "run" of levels
  that ends before the next level holding one (or at the transition level).
  Every process of the group contributes the residual values of its owned
  blocks over the whole run, level by level; the gathered buffer is the
  concatenation of the contributions in rank order.
 */
module Agglomeration {
  import opened CompositeLevels

  /** The first level at or after i holding a local communicator, or tl when there is none before it. */
  function NextCommLevel(agg: seq<LocalComm>, i: nat, tl: nat): (e: nat)
    requires i <= tl <= |agg|
    ensures i <= e <= tl
    ensures e < tl ==> agg[e].Comm?
    ensures forall k :: i <= k < e ==> agg[k].NoComm?
    decreases tl - i
  {
    if i == tl then tl
    else if agg[i].Comm? then i
    else NextCommLevel(agg, i + 1, tl)
  }

  /** Where the run of levels that starts at `level` stops (the `break` of the level scans). */
  function RunEnd(agg: seq<LocalComm>, level: nat, tl: nat): nat
    requires level < tl <= |agg|
  {
    NextCommLevel(agg, level + 1, tl)
  }

  /**
    A run stops at the first later level holding a communicator, or at the
    transition level: no level strictly inside the run holds one.
   */
  lemma RunEndIsNextComm(agg: seq<LocalComm>, level: nat, tl: nat)
    requires level < tl <= |agg|
    ensures level < RunEnd(agg, level, tl) <= tl
    ensures RunEnd(agg, level, tl) < tl ==> agg[RunEnd(agg, level, tl)].Comm?
    ensures forall k :: level < k < RunEnd(agg, level, tl) ==> agg[k].NoComm?
  {
  }

  /** The latest level at or below l holding a local communicator, or -1 when there is none. */
  function RunStart(agg: seq<LocalComm>, l: nat): (a: int)
    requires l < |agg|
    ensures -1 <= a <= l
    ensures a >= 0 ==> agg[a].Comm?
    ensures forall k :: a < k <= l ==> agg[k].NoComm?
  {
    if agg[l].Comm? then l
    else if l == 0 then -1
    else RunStart(agg, l - 1)
  }

  /** A level inside the run started at RunStart(l) lies before that run's end. */
  lemma {:induction false} RunCoversLevel(agg: seq<LocalComm>, l: nat, tl: nat)
    requires l < tl <= |agg|
    requires RunStart(agg, l) >= 0
    ensures l < RunEnd(agg, RunStart(agg, l), tl)
  {
  }

  /** Inside the run that starts at level a, every level's run starts at a. */
  lemma {:induction false} RunStartInsideRun(agg: seq<LocalComm>, a: nat, tl: nat, l: nat)
    requires a < tl <= |agg| && agg[a].Comm?
    requires a <= l < RunEnd(agg, a, tl)
    ensures RunStart(agg, l) == a
    decreases l
  {
    if l > a {
      RunStartInsideRun(agg, a, tl, l - 1);
    }
  }

  /**
    The owned-block starts of one level, for a group of `size` processes:
    non-decreasing, and every block lies inside the level's composite grid.
   */
  predicate Partition(starts: seq<int>, size: nat, numNodes: int)
  {
    && size < |starts|
    && 0 <= starts[0] && starts[size] <= numNodes
    && forall p, q :: 0 <= p <= q <= size ==> starts[p] <= starts[q]
  }

  /** Every level of [a, e) is partitioned among the `size` processes of the group. */
  predicate RunPartitioned(F: seq<seq<real>>, obs: seq<seq<int>>, a: nat, e: nat, size: nat)
  {
    && e <= |F| && e <= |obs|
    && forall l :: a <= l < e ==> Partition(obs[l], size, |F[l]|)
  }

  /** Number of owned nodes of process p over the levels [a, i). */
  function RunCount(obs: seq<seq<int>>, a: nat, i: nat, p: nat): int
    requires i <= |obs|
    requires forall l :: a <= l < i ==> p + 1 < |obs[l]|
    decreases i
  {
    if i <= a then 0
    else RunCount(obs, a, i - 1, p) + (obs[i - 1][p + 1] - obs[i - 1][p])
  }

  /** The receive counts of the group: RunCount of every process over the run. */
  function RunCounts(obs: seq<seq<int>>, a: nat, e: nat, size: nat): (counts: seq<int>)
    requires e <= |obs|
    requires forall l :: a <= l < e ==> size < |obs[l]|
  {
    seq(size, p requires 0 <= p < size => RunCount(obs, a, e, p))
  }

  lemma {:induction false} RunCountGrows(F: seq<seq<real>>, obs: seq<seq<int>>, a: nat, i: nat, e: nat, size: nat, p: nat)
    requires RunPartitioned(F, obs, a, e, size)
    requires i <= e && p < size
    ensures 0 <= RunCount(obs, a, i, p) <= RunCount(obs, a, e, p)
    decreases e
  {
    if i < e {
      RunCountGrows(F, obs, a, i, e - 1, size, p);
    } else {
      RunCountNonNegative(F, obs, a, i, size, p);
    }
  }

  lemma {:induction false} RunCountNonNegative(F: seq<seq<real>>, obs: seq<seq<int>>, a: nat, i: nat, size: nat, p: nat)
    requires RunPartitioned(F, obs, a, i, size) && p < size
    ensures 0 <= RunCount(obs, a, i, p)
    decreases i
  {
    if a < i {
      RunCountNonNegative(F, obs, a, i - 1, size, p);
    }
  }

  /** What process p contributes: its owned block of every level of [a, e), level by level. */
  function OwnedRun(F: seq<seq<real>>, obs: seq<seq<int>>, a: nat, e: nat, size: nat, p: nat): (s: seq<real>)
    requires RunPartitioned(F, obs, a, e, size) && p < size
    ensures |s| == RunCount(obs, a, e, p)
    decreases e
  {
    if e <= a then []
    else OwnedRun(F, obs, a, e - 1, size, p) + F[e - 1][obs[e - 1][p]..obs[e - 1][p + 1]]
  }

  /** Lengths of the contributions, in rank order. */
  function Lengths(c: seq<seq<real>>): (lens: seq<int>)
    ensures |lens| == |c|
    ensures forall p :: 0 <= p < |c| ==> lens[p] == |c[p]|
  {
    seq(|c|, p requires 0 <= p < |c| => |c[p]|)
  }

  /** The all-gather of a group: the contributions concatenated in rank order. */
  function Concat(c: seq<seq<real>>): (r: seq<real>)
    decreases |c|
  {
    if c == [] then [] else Concat(c[..|c| - 1]) + c[|c| - 1]
  }

  lemma {:induction false} ConcatLength(c: seq<seq<real>>)
    ensures |Concat(c)| == PrefixSum(Lengths(c), |c|)
    decreases |c|
  {
    if c != [] {
      var init := c[..|c| - 1];
      ConcatLength(init);
      PrefixSumPrefix(Lengths(c), Lengths(init), |init|);
    }
  }

  /** Over non-negative entries, prefix sums are non-negative and grow with p. */
  lemma {:induction false} PrefixSumGrows(a: seq<int>, p: nat, q: nat)
    requires p <= q <= |a|
    requires forall i :: 0 <= i < |a| ==> 0 <= a[i]
    ensures 0 <= PrefixSum(a, p) <= PrefixSum(a, q)
    decreases q
  {
    if p < q {
      PrefixSumGrows(a, p, q - 1);
    } else if 0 < p {
      PrefixSumGrows(a, p - 1, q - 1);
    }
  }

  /** Prefix sums only look at the entries before p. */
  lemma {:induction false} PrefixSumPrefix(a: seq<int>, b: seq<int>, p: nat)
    requires p <= |a| && p <= |b|
    requires forall q :: 0 <= q < p ==> a[q] == b[q]
    ensures PrefixSum(a, p) == PrefixSum(b, p)
  {
    if p > 0 {
      PrefixSumPrefix(a, b, p - 1);
    }
  }

  /**
    The contributions gathered by the group whose run starts at level a: this
    process (rank r) contributes its own owned run, every other process q
    the buffer `peers[q]` it sent.
   */
  function Contributions(F: seq<seq<real>>, obs: seq<seq<int>>, a: nat, e: nat, size: nat, r: nat,
                         peers: seq<seq<real>>): (c: seq<seq<real>>)
    requires RunPartitioned(F, obs, a, e, size) && r < size && |peers| == size
    ensures |c| == size
  {
    peers[r := OwnedRun(F, obs, a, e, size, r)]
  }

  /** The peers sent buffers of the sizes the receive counts announce. */
  predicate PeersMatchCounts(obs: seq<seq<int>>, a: nat, e: nat, size: nat, r: nat, peers: seq<seq<real>>)
    requires e <= |obs|
    requires forall l :: a <= l < e ==> size < |obs[l]|
  {
    |peers| == size && forall q :: 0 <= q < size && q != r ==> |peers[q]| == RunCount(obs, a, e, q)
  }

  /**
    When every process sends as much as the receive counts announce, the
    contribution lengths are the receive counts, so the displacements are
    their prefix sums.
   */
  lemma ContributionLengths(F: seq<seq<real>>, obs: seq<seq<int>>, a: nat, e: nat, size: nat, r: nat,
                            peers: seq<seq<real>>)
    requires RunPartitioned(F, obs, a, e, size) && r < size
    requires PeersMatchCounts(obs, a, e, size, r, peers)
    ensures Lengths(Contributions(F, obs, a, e, size, r, peers)) == RunCounts(obs, a, e, size)
  {
  }

  /** Receive counts are never negative. */
  lemma RunCountsNonNegative(F: seq<seq<real>>, obs: seq<seq<int>>, a: nat, e: nat, size: nat)
    requires RunPartitioned(F, obs, a, e, size)
    ensures forall q :: 0 <= q < size ==> 0 <= RunCounts(obs, a, e, size)[q]
  {
    forall q | 0 <= q < size
      ensures 0 <= RunCounts(obs, a, e, size)[q]
    {
      RunCountNonNegative(F, obs, a, e, size, q);
    }
  }

  /** The part of a gathered buffer that came from process p: `counts[p]` entries from displacement p. */
  function Section(counts: seq<int>, buf: seq<real>, p: nat): (s: seq<real>)
    requires p < |counts| && forall q :: 0 <= q < |counts| ==> 0 <= counts[q]
    requires PrefixSum(counts, |counts|) <= |buf|
    ensures |s| == counts[p]
  {
    PrefixSumGrows(counts, p + 1, |counts|);
    PrefixSumGrows(counts, p, p + 1);
    buf[PrefixSum(counts, p)..PrefixSum(counts, p + 1)]
  }

  /**
    The gathered buffer is long enough for the receive counts, and the
    section of process p in it is exactly what p contributed.
   */
  lemma {:induction false} ConcatSection(c: seq<seq<real>>, p: nat)
    requires p < |c|
    ensures PrefixSum(Lengths(c), |c|) <= |Concat(c)|
    ensures Section(Lengths(c), Concat(c), p) == c[p]
    decreases |c|
  {
    var init := c[..|c| - 1];
    ConcatLength(c);
    ConcatLength(init);
    PrefixSumGrows(Lengths(c), p + 1, |c|);
    PrefixSumPrefix(Lengths(c), Lengths(init), p);
    PrefixSumPrefix(Lengths(c), Lengths(init), |init|);
    if p < |init| {
      ConcatSection(init, p);
      PrefixSumPrefix(Lengths(c), Lengths(init), p + 1);
      PrefixSumGrows(Lengths(init), p + 1, |init|);
      PrefixSumGrows(Lengths(c), p, p + 1);
      var lo, hi := PrefixSum(Lengths(c), p), PrefixSum(Lengths(c), p + 1);
      assert Concat(c) == Concat(init) + c[|c| - 1];
      assert Concat(c)[lo..hi] == Concat(init)[lo..hi];
    }
  }

  /** Extending a run by one level appends that level's block to the owned run. */
  lemma OwnedRunExtend(F: seq<seq<real>>, obs: seq<seq<int>>, a: nat, i: nat, size: nat, p: nat,
                       buf: seq<real>, c0: nat, c: nat)
    requires RunPartitioned(F, obs, a, i + 1, size) && a <= i && p < size
    requires c0 <= c && c + (obs[i][p + 1] - obs[i][p]) <= |buf|
    requires OwnedRun(F, obs, a, i, size, p) == buf[c0..c]
    requires F[i][obs[i][p]..obs[i][p + 1]] == buf[c..c + (obs[i][p + 1] - obs[i][p])]
    ensures OwnedRun(F, obs, a, i + 1, size, p) == buf[c0..c + (obs[i][p + 1] - obs[i][p])]
  {
    assert buf[c0..c + (obs[i][p + 1] - obs[i][p])] == buf[c0..c] + buf[c..c + (obs[i][p + 1] - obs[i][p])];
  }

  /** OwnedRun of process p depends only on the nodes of p's blocks. */
  lemma {:induction false} OwnedRunFrame(F: seq<seq<real>>, G: seq<seq<real>>, obs: seq<seq<int>>,
                                         a: nat, e: nat, size: nat, p: nat)
    requires RunPartitioned(F, obs, a, e, size) && RunPartitioned(G, obs, a, e, size) && p < size
    requires forall l, x :: a <= l < e && obs[l][p] <= x < obs[l][p + 1] ==> F[l][x] == G[l][x]
    ensures OwnedRun(F, obs, a, e, size, p) == OwnedRun(G, obs, a, e, size, p)
    decreases e
  {
    if a < e {
      OwnedRunFrame(F, G, obs, a, e - 1, size, p);
      var l := e - 1;
      assert F[l][obs[l][p]..obs[l][p + 1]] == G[l][obs[l][p]..obs[l][p + 1]];
    }
  }

  /**
    The runs of all agglomeration levels below tl are partitioned among
    their groups, and every group's rank is below its size.
   */
  predicate RunsPartitioned(F: seq<seq<real>>, obs: seq<seq<int>>, agg: seq<LocalComm>, tl: nat)
  {
    && tl <= |agg| && tl <= |F| && tl <= |obs|
    && forall a :: 0 <= a < tl && agg[a].Comm? ==>
         agg[a].WellFormed() && RunPartitioned(F, obs, a, RunEnd(agg, a, tl), agg[a].size)
  }

  /** Partitioning depends only on the lengths of the levels. */
  lemma SameShapeRunsPartitioned(F: seq<seq<real>>, G: seq<seq<real>>, obs: seq<seq<int>>, agg: seq<LocalComm>, tl: nat)
    requires RunsPartitioned(F, obs, agg, tl)
    requires |G| == |F| && forall l :: 0 <= l < |F| ==> |G[l]| == |F[l]|
    ensures RunsPartitioned(G, obs, agg, tl)
  {
  }

  /** Every agglomeration level below tl has a buffer from each peer, as long as its receive count. */
  predicate PeersSized(F: seq<seq<real>>, obs: seq<seq<int>>, agg: seq<LocalComm>, tl: nat, peers: seq<seq<seq<real>>>)
    requires RunsPartitioned(F, obs, agg, tl)
  {
    tl <= |peers| &&
    forall a :: 0 <= a < tl && agg[a].Comm? ==>
      PeersMatchCounts(obs, a, RunEnd(agg, a, tl), agg[a].size, agg[a].rank, peers[a])
  }

  /** Node x of level l lies in a block of the group whose run covers level l. */
  predicate Covered(F: seq<seq<real>>, obs: seq<seq<int>>, agg: seq<LocalComm>, tl: nat, l: nat, x: int)
    requires RunsPartitioned(F, obs, agg, tl) && l < tl
  {
    var a := RunStart(agg, l);
    a >= 0 && (RunCoversLevel(agg, l, tl); obs[l][0] <= x < obs[l][agg[a].size])
  }

  /**
    The rank the seeding loop uses on level l: the rank in the latest
    agglomeration group at or below l, 0 when there is none.
   */
  function LocalRank(agg: seq<LocalComm>, l: nat): nat
    requires l < |agg|
  {
    var a := RunStart(agg, l);
    if a >= 0 then agg[a].rank else 0
  }

  /**
    The seeding rank on level l is the rank of the latest level at or below l
    holding a communicator, and 0 when no such level exists.
   */
  lemma LocalRankIsLatest(agg: seq<LocalComm>, l: nat, k: int)
    requires l < |agg| && -1 <= k <= l
    requires k >= 0 ==> agg[k].Comm?
    requires forall j :: k < j <= l ==> agg[j].NoComm?
    ensures LocalRank(agg, l) == if k >= 0 then agg[k].rank else 0
  {
  }

  /**
    On every level of a group's run, the rank the seeding loop uses is the
    process's rank in that group: the block it seeds is the block it
    contributes to the group's all-gather.
   */
  lemma SeedRankIsGroupRank(agg: seq<LocalComm>, a: nat, tl: nat, l: nat)
    requires a < tl <= |agg| && agg[a].Comm?
    requires a <= l < RunEnd(agg, a, tl)
    ensures LocalRank(agg, l) == agg[a].rank
  {
    RunStartInsideRun(agg, a, tl, l);
  }

  /**
    The all-gather of a group: contribution p lands at displacement
    displs[p] and occupies recvcounts[p] entries.  With displacements that
    are the prefix sums of the counts, the gathered buffer is the
    concatenation of the contributions in rank order.
   */
  function Allgatherv(contribs: seq<seq<real>>, recvcounts: seq<int>, displs: seq<int>): (buf: seq<real>)
    requires |contribs| == |recvcounts| == |displs|
    requires forall p :: 0 <= p < |contribs| ==> |contribs[p]| == recvcounts[p]
    requires forall p :: 0 <= p < |displs| ==> displs[p] == PrefixSum(recvcounts, p)
    ensures |buf| == PrefixSum(recvcounts, |recvcounts|)
  {
    ConcatLength(contribs);
    PrefixSumPrefix(Lengths(contribs), recvcounts, |contribs|);
    Concat(contribs)
  }

  /** The section of process p in the buffer gathered by the group whose run is [a, e). */
  function GatheredSection(F: seq<seq<real>>, obs: seq<seq<int>>, a: nat, e: nat, size: nat, buf: seq<real>, p: nat)
    : (s: seq<real>)
    requires RunPartitioned(F, obs, a, e, size) && p < size
    requires PrefixSum(RunCounts(obs, a, e, size), size) <= |buf|
    ensures |s| == RunCount(obs, a, e, p)
  {
    RunCountsNonNegative(F, obs, a, e, size);
    Section(RunCounts(obs, a, e, size), buf, p)
  }

  /**
    Gather round trip: the section of process p in the gathered buffer is
    p's contribution, provided each contribution is as long as its
    receive count.
   */
  lemma AllgathervSection(F: seq<seq<real>>, obs: seq<seq<int>>, a: nat, e: nat, size: nat,
                          contribs: seq<seq<real>>, displs: seq<int>, p: nat)
    requires RunPartitioned(F, obs, a, e, size) && p < size
    requires |contribs| == size && Lengths(contribs) == RunCounts(obs, a, e, size)
    requires |displs| == size && forall q :: 0 <= q < size ==> displs[q] == PrefixSum(RunCounts(obs, a, e, size), q)
    ensures PrefixSum(RunCounts(obs, a, e, size), size)
            <= |Allgatherv(contribs, RunCounts(obs, a, e, size), displs)|
    ensures GatheredSection(F, obs, a, e, size, Allgatherv(contribs, RunCounts(obs, a, e, size), displs), p)
            == contribs[p]
  {
    ConcatSection(contribs, p);
  }

  /**
    State of the level loop of the all-gather after the levels below
    `level`: every group started below `level` has its owned runs filled
    with its contributions, computed from the values F0 before the loop;
    nodes outside those groups' blocks, and every level whose run has not
    been gathered yet, still hold their F0 values.
   */
  predicate GatherInvariant(F0: seq<seq<real>>, G: seq<seq<real>>, obs: seq<seq<int>>, agg: seq<LocalComm>, tl: nat,
                            peers: seq<seq<seq<real>>>, level: nat)
  {
    && level <= tl
    && RunsPartitioned(F0, obs, agg, tl) && PeersSized(F0, obs, agg, tl, peers)
    && |G| == |F0| && (forall l :: 0 <= l < |G| ==> |G[l]| == |F0[l]|)
    && RunsPartitioned(G, obs, agg, tl)
    && PendingKept(F0, G, agg, tl, level)
    && UncoveredKept(F0, G, obs, agg, tl, level)
    && GroupsFilled(F0, G, obs, agg, tl, peers, level)
  }

  /** Levels outside the runs gathered so far hold their values from before the loop. */
  predicate PendingKept(F0: seq<seq<real>>, G: seq<seq<real>>, agg: seq<LocalComm>, tl: nat, level: nat)
    requires tl <= |agg| && |G| == |F0|
  {
    forall l :: 0 <= l < |G| && !(l < tl && 0 <= RunStart(agg, l) < level) ==> G[l] == F0[l]
  }

  /** Inside the runs gathered so far, nodes outside the group's blocks hold their values from before the loop. */
  predicate UncoveredKept(F0: seq<seq<real>>, G: seq<seq<real>>, obs: seq<seq<int>>, agg: seq<LocalComm>, tl: nat,
                          level: nat)
    requires RunsPartitioned(F0, obs, agg, tl) && |G| == |F0| && forall l :: 0 <= l < |G| ==> |G[l]| == |F0[l]|
  {
    forall l, x | 0 <= l < tl && 0 <= RunStart(agg, l) < level && 0 <= x < |G[l]|
      :: !Covered(F0, obs, agg, tl, l, x) ==> G[l][x] == F0[l][x]
  }

  /** Every group started below `level` has its owned runs filled with the contributions. */
  predicate GroupsFilled(F0: seq<seq<real>>, G: seq<seq<real>>, obs: seq<seq<int>>, agg: seq<LocalComm>, tl: nat,
                         peers: seq<seq<seq<real>>>, level: nat)
    requires RunsPartitioned(F0, obs, agg, tl) && PeersSized(F0, obs, agg, tl, peers)
    requires RunsPartitioned(G, obs, agg, tl) && level <= tl
  {
    forall a, p | 0 <= a < level && agg[a].Comm? && 0 <= p < agg[a].size :: GroupFilled(F0, G, obs, agg, tl, peers, a, p)
  }

  /** Process p of the group started at level a has its owned run filled with its contribution. */
  predicate GroupFilled(F0: seq<seq<real>>, G: seq<seq<real>>, obs: seq<seq<int>>, agg: seq<LocalComm>, tl: nat,
                        peers: seq<seq<seq<real>>>, a: nat, p: nat)
    requires RunsPartitioned(F0, obs, agg, tl) && PeersSized(F0, obs, agg, tl, peers)
    requires RunsPartitioned(G, obs, agg, tl) && a < tl && agg[a].Comm? && p < agg[a].size
  {
    OwnedRun(G, obs, a, RunEnd(agg, a, tl), agg[a].size, p)
    == Contributions(F0, obs, a, RunEnd(agg, a, tl), agg[a].size, agg[a].rank, peers[a])[p]
  }

  /**
    Before a group's all-gather, its run still holds the values from before
    the loop, so its contributions are the ones computed from them.
   */
  lemma GatherGroupReady(F0: seq<seq<real>>, G: seq<seq<real>>, obs: seq<seq<int>>, agg: seq<LocalComm>, tl: nat,
                         peers: seq<seq<seq<real>>>, level: nat)
    requires GatherInvariant(F0, G, obs, agg, tl, peers, level)
    requires level < tl && agg[level].Comm?
    ensures agg[level].WellFormed()
    ensures RunPartitioned(G, obs, level, RunEnd(agg, level, tl), agg[level].size)
    ensures PeersMatchCounts(obs, level, RunEnd(agg, level, tl), agg[level].size, agg[level].rank, peers[level])
    ensures Contributions(G, obs, level, RunEnd(agg, level, tl), agg[level].size, agg[level].rank, peers[level])
            == Contributions(F0, obs, level, RunEnd(agg, level, tl), agg[level].size, agg[level].rank, peers[level])
  {
    var e, n, r := RunEnd(agg, level, tl), agg[level].size, agg[level].rank;
    forall l | level <= l < e
      ensures G[l] == F0[l]
    {
      RunStartInsideRun(agg, level, tl, l);
    }
    OwnedRunFrame(G, F0, obs, level, e, n, r);
  }

  /** A level without a group leaves the loop state as it is. */
  lemma GatherSkip(F0: seq<seq<real>>, G: seq<seq<real>>, obs: seq<seq<int>>, agg: seq<LocalComm>, tl: nat,
                   peers: seq<seq<seq<real>>>, level: nat)
    requires GatherInvariant(F0, G, obs, agg, tl, peers, level)
    requires level < tl && agg[level].NoComm?
    ensures GatherInvariant(F0, G, obs, agg, tl, peers, level + 1)
  {
    assert forall l :: 0 <= l < tl ==> RunStart(agg, l) != level;
  }

  /**
    A group's all-gather, described by what it guarantees about the values
    H it leaves behind, advances the loop state by one level: runs of
    earlier groups end at or before `level` and are untouched.
   */
  lemma GatherStep(F0: seq<seq<real>>, G: seq<seq<real>>, H: seq<seq<real>>, obs: seq<seq<int>>,
                   agg: seq<LocalComm>, tl: nat, peers: seq<seq<seq<real>>>, level: nat)
    requires GatherInvariant(F0, G, obs, agg, tl, peers, level)
    requires level < tl && agg[level].Comm? && agg[level].WellFormed()
    requires |H| == |G| && forall l :: 0 <= l < |H| ==> |H[l]| == |G[l]|
    requires RunPartitioned(H, obs, level, RunEnd(agg, level, tl), agg[level].size)
    requires forall p :: 0 <= p < agg[level].size ==>
               OwnedRun(H, obs, level, RunEnd(agg, level, tl), agg[level].size, p)
               == Contributions(F0, obs, level, RunEnd(agg, level, tl), agg[level].size, agg[level].rank, peers[level])[p]
    requires forall l :: 0 <= l < |H| && !(level <= l < RunEnd(agg, level, tl)) ==> H[l] == G[l]
    requires forall l, x | level <= l < RunEnd(agg, level, tl) && 0 <= x < |H[l]|
               :: !(obs[l][0] <= x < obs[l][agg[level].size]) ==> H[l][x] == G[l][x]
    ensures GatherInvariant(F0, H, obs, agg, tl, peers, level + 1)
  {
    SameShapeRunsPartitioned(G, H, obs, agg, tl);
    GatherStepKept(F0, G, H, obs, agg, tl, level);
    GatherStepFilled(F0, G, H, obs, agg, tl, peers, level);
  }

  /** The frame part of GatherStep: untouched levels and uncovered nodes keep their values. */
  lemma GatherStepKept(F0: seq<seq<real>>, G: seq<seq<real>>, H: seq<seq<real>>, obs: seq<seq<int>>,
                       agg: seq<LocalComm>, tl: nat, level: nat)
    requires RunsPartitioned(F0, obs, agg, tl) && level < tl && agg[level].Comm?
    requires |G| == |F0| && (forall l :: 0 <= l < |G| ==> |G[l]| == |F0[l]|)
    requires PendingKept(F0, G, agg, tl, level) && UncoveredKept(F0, G, obs, agg, tl, level)
    requires |H| == |G| && forall l :: 0 <= l < |H| ==> |H[l]| == |G[l]|
    requires forall l :: 0 <= l < |H| && !(level <= l < RunEnd(agg, level, tl)) ==> H[l] == G[l]
    requires forall l, x | level <= l < RunEnd(agg, level, tl) && 0 <= x < |H[l]|
               :: !(obs[l][0] <= x < obs[l][agg[level].size]) ==> H[l][x] == G[l][x]
    ensures PendingKept(F0, H, agg, tl, level + 1) && UncoveredKept(F0, H, obs, agg, tl, level + 1)
  {
    var e := RunEnd(agg, level, tl);
    forall l | 0 <= l < tl && RunStart(agg, l) == level
      ensures l < e
    {
      RunCoversLevel(agg, l, tl);
    }
    forall l | level <= l < e
      ensures RunStart(agg, l) == level
    {
      RunStartInsideRun(agg, level, tl, l);
    }
  }

  /** The filling part of GatherStep: earlier groups' runs end at or before `level` and stay filled. */
  lemma GatherStepFilled(F0: seq<seq<real>>, G: seq<seq<real>>, H: seq<seq<real>>, obs: seq<seq<int>>,
                         agg: seq<LocalComm>, tl: nat, peers: seq<seq<seq<real>>>, level: nat)
    requires RunsPartitioned(F0, obs, agg, tl) && PeersSized(F0, obs, agg, tl, peers)
    requires RunsPartitioned(G, obs, agg, tl) && RunsPartitioned(H, obs, agg, tl)
    requires level < tl && agg[level].Comm? && |H| == |G|
    requires GroupsFilled(F0, G, obs, agg, tl, peers, level)
    requires forall p :: 0 <= p < agg[level].size ==>
               OwnedRun(H, obs, level, RunEnd(agg, level, tl), agg[level].size, p)
               == Contributions(F0, obs, level, RunEnd(agg, level, tl), agg[level].size, agg[level].rank, peers[level])[p]
    requires forall l :: 0 <= l < |H| && !(level <= l < RunEnd(agg, level, tl)) ==> H[l] == G[l]
    ensures GroupsFilled(F0, H, obs, agg, tl, peers, level + 1)
  {
    forall a, p | 0 <= a < level + 1 && agg[a].Comm? && 0 <= p < agg[a].size
      ensures GroupFilled(F0, H, obs, agg, tl, peers, a, p)
    {
      if a < level {
        assert GroupFilled(F0, G, obs, agg, tl, peers, a, p);
        assert forall l :: 0 <= l < level && l < |H| ==> H[l] == G[l];
        EarlierGroupKept(G, H, obs, agg, tl, level, a, p);
      } else {
        assert a == level;
      }
    }
  }

  /** The run of a group started before `level` is left alone when only levels from `level` on change. */
  lemma EarlierGroupKept(G: seq<seq<real>>, H: seq<seq<real>>, obs: seq<seq<int>>, agg: seq<LocalComm>, tl: nat,
                         level: nat, a: nat, p: nat)
    requires RunsPartitioned(G, obs, agg, tl) && RunsPartitioned(H, obs, agg, tl)
    requires a < level < tl && agg[a].Comm? && agg[level].Comm? && p < agg[a].size
    requires forall l :: 0 <= l < level && l < |H| && l < |G| ==> H[l] == G[l]
    ensures OwnedRun(H, obs, a, RunEnd(agg, a, tl), agg[a].size, p)
            == OwnedRun(G, obs, a, RunEnd(agg, a, tl), agg[a].size, p)
  {
    var e := RunEnd(agg, a, tl);
    RunEndBeforeNextGroup(agg, a, tl, level);
    OwnedRunFrame(H, G, obs, a, e, agg[a].size, p);
  }

  /** A run ends at or before the next level holding a communicator. */
  lemma RunEndBeforeNextGroup(agg: seq<LocalComm>, a: nat, tl: nat, level: nat)
    requires a < level < tl <= |agg| && agg[level].Comm?
    ensures RunEnd(agg, a, tl) <= level
  {
  }

  /**
    After the last level below tl, every group's owned runs hold the
    contributions, and every node outside the groups' blocks keeps its value.
   */
  lemma GatherComplete(F0: seq<seq<real>>, G: seq<seq<real>>, obs: seq<seq<int>>, agg: seq<LocalComm>, tl: nat,
                       peers: seq<seq<seq<real>>>)
    requires GatherInvariant(F0, G, obs, agg, tl, peers, tl)
    ensures forall a, p | 0 <= a < tl && agg[a].Comm? && 0 <= p < agg[a].size
              :: OwnedRun(G, obs, a, RunEnd(agg, a, tl), agg[a].size, p)
                 == Contributions(F0, obs, a, RunEnd(agg, a, tl), agg[a].size, agg[a].rank, peers[a])[p]
    ensures forall l, x | 0 <= l < |G| && 0 <= x < |G[l]|
              :: !(l < tl && Covered(F0, obs, agg, tl, l, x)) ==> G[l][x] == F0[l][x]
  {
    forall a, p | 0 <= a < tl && agg[a].Comm? && 0 <= p < agg[a].size
      ensures OwnedRun(G, obs, a, RunEnd(agg, a, tl), agg[a].size, p)
              == Contributions(F0, obs, a, RunEnd(agg, a, tl), agg[a].size, agg[a].rank, peers[a])[p]
    {
      assert GroupFilled(F0, G, obs, agg, tl, peers, a, p);
    }
    forall l, x | 0 <= l < |G| && 0 <= x < |G[l]| && !(l < tl && Covered(F0, obs, agg, tl, l, x))
      ensures G[l][x] == F0[l][x]
    {
      if l < tl && 0 <= RunStart(agg, l) {
        assert !Covered(F0, obs, agg, tl, l, x);
      }
    }
  }
}
