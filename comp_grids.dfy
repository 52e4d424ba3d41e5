/**
  The composite grids of one process during the AMG-DD solve cycle, and the
  operations of the cycle that read and write them in place: packing and
  unpacking residual messages, seeding the owned residual, the local
  all-gather among agglomerated processes, zeroing the initial guess and
  adding the correction into the fine solution.
 */
module CompGrids {
  import opened CompositeLevels
  import opened ResidualBuffer
  import opened Agglomeration

  class CompositeGrids {
    /** Composite residual of every level (`hypre_ParCompGridF`). */
    var F: seq<seq<real>>
    /** Composite solution of every level (`hypre_ParCompGridU`). */
    var U: seq<seq<real>>
    /** Per level, where each process's owned block starts (`hypre_ParCompGridOwnedBlockStarts`). */
    var ownedBlockStarts: seq<seq<int>>
    /** Per level, how many owned blocks there are (`hypre_ParCompGridNumOwnedBlocks`). */
    var numOwnedBlocks: seq<int>

    constructor (f: seq<seq<real>>, u: seq<seq<real>>, obs: seq<seq<int>>, nob: seq<int>)
      ensures F == f && U == u && ownedBlockStarts == obs && numOwnedBlocks == nob
    {
      F := f;
      U := u;
      ownedBlockStarts := obs;
      numOwnedBlocks := nob;
    }

    /**
      Writes the message for one partner into `sendBuffer`: for every level
      from currentLevel up to numLevels - 1, the residual at each flagged
      node, in flag order.  Nothing past the message changes.
     */
    method PackResidualBuffer(sendBuffer: array<real>, sendFlag: seq<seq<int>>, numSendNodes: seq<int>,
                              currentLevel: nat, numLevels: nat)
      requires IndexListsFit(F, sendFlag, numSendNodes, currentLevel, numLevels)
      requires Offset(numSendNodes, currentLevel, numLevels) <= sendBuffer.Length
      modifies sendBuffer
      ensures sendBuffer[..Offset(numSendNodes, currentLevel, numLevels)]
              == Packed(F, sendFlag, numSendNodes, currentLevel, numLevels)
      ensures sendBuffer[Offset(numSendNodes, currentLevel, numLevels)..]
              == old(sendBuffer[Offset(numSendNodes, currentLevel, numLevels)..])
    {
      var cnt := 0;
      var level := currentLevel;
      while level < numLevels
        invariant currentLevel <= level <= numLevels || level == currentLevel
        invariant level <= numLevels ==> cnt == Offset(numSendNodes, currentLevel, level)
        invariant cnt <= Offset(numSendNodes, currentLevel, numLevels)
        invariant level <= numLevels ==> sendBuffer[..cnt] == Packed(F, sendFlag, numSendNodes, currentLevel, level)
        invariant level > numLevels ==> cnt == 0
        invariant forall k :: cnt <= k < sendBuffer.Length ==> sendBuffer[k] == old(sendBuffer[k])
      {
        OffsetMonotone(numSendNodes, currentLevel, level + 1, numLevels);
        var i := 0;
        while i < numSendNodes[level]
          invariant i <= TripCount(numSendNodes[level])
          invariant cnt == Offset(numSendNodes, currentLevel, level) + i
          invariant sendBuffer[..cnt] == Packed(F, sendFlag, numSendNodes, currentLevel, level)
                                         + LevelPacked(F[level], sendFlag[level], i)
          invariant forall k :: cnt <= k < sendBuffer.Length ==> sendBuffer[k] == old(sendBuffer[k])
        {
          sendBuffer[cnt] := F[level][sendFlag[level][i]];
          assert LevelPacked(F[level], sendFlag[level], i + 1)
                 == LevelPacked(F[level], sendFlag[level], i) + [F[level][sendFlag[level][i]]];
          cnt := cnt + 1;
          i := i + 1;
        }
        level := level + 1;
      }
    }

    /**
      Stores a message from one partner: for every level from currentLevel
      up to numLevels - 1, the next buffer entries go to the mapped nodes,
      in map order.  The solution vectors do not change.
     */
    method UnpackResidualBuffer(recvBuffer: array<real>, recvMap: seq<seq<int>>, numRecvNodes: seq<int>,
                                currentLevel: nat, numLevels: nat)
      requires IndexListsFit(F, recvMap, numRecvNodes, currentLevel, numLevels)
      requires Offset(numRecvNodes, currentLevel, numLevels) <= recvBuffer.Length
      modifies this`F
      ensures F == Unpacked(old(F), recvMap, numRecvNodes, recvBuffer[..], currentLevel, numLevels)
    {
      ghost var buf := recvBuffer[..];
      ghost var F0 := F;
      var G := F;
      var cnt := 0;
      var level := currentLevel;
      while level < numLevels
        invariant currentLevel <= level && (level <= numLevels || level == currentLevel)
        invariant level <= numLevels ==> cnt == Offset(numRecvNodes, currentLevel, level)
        invariant level <= numLevels ==> Offset(numRecvNodes, currentLevel, level) <= |buf|
        invariant G == if level <= numLevels then Unpacked(F0, recvMap, numRecvNodes, buf, currentLevel, level) else F0
      {
        OffsetMonotone(numRecvNodes, currentLevel, level + 1, numLevels);
        UnpackedLevel(F0, recvMap, numRecvNodes, buf, currentLevel, level, level);
        ghost var before := G;
        var i := 0;
        while i < numRecvNodes[level]
          invariant i <= TripCount(numRecvNodes[level])
          invariant cnt == Offset(numRecvNodes, currentLevel, level) + i
          invariant G == before[level := LevelUnpacked(F0[level], recvMap[level], buf,
                                                       Offset(numRecvNodes, currentLevel, level), i)]
        {
          G := G[level := G[level][recvMap[level][i] := recvBuffer[cnt]]];
          cnt := cnt + 1;
          i := i + 1;
        }
        level := level + 1;
      }
      if numLevels < currentLevel {
        assert G == Unpacked(F0, recvMap, numRecvNodes, buf, currentLevel, numLevels);
      }
      F := G;
    }

    /**
      Copies the restricted residual of every level below the transition
      level into this process's owned block of the composite residual: node
      x of the block receives entry x - start of the level's residual, where
      the block is the one of the local rank (the rank in the latest
      agglomeration group seen so far, 0 before the first).  A negative
      transition level stands for numLevels.
     */
    method SeedOwnedResiduals(residual: seq<seq<real>>, agg: seq<LocalComm>, transitionLevel: int, numLevels: nat)
      requires transitionLevel <= numLevels <= |agg|
      requires SeedFits(F, ownedBlockStarts, residual, agg, EffectiveTransitionLevel(transitionLevel, numLevels))
      modifies this`F
      ensures |F| == |old(F)| && forall l :: 0 <= l < |F| ==> |F[l]| == |old(F)[l]|
      ensures forall l, x | 0 <= l < EffectiveTransitionLevel(transitionLevel, numLevels) && InOwnBlock(ownedBlockStarts, agg, l, x)
                :: F[l][x] == residual[l][x - OwnStart(ownedBlockStarts, agg, l)]
      ensures forall l, x | 0 <= l < |F| && 0 <= x < |F[l]|
                :: !(l < EffectiveTransitionLevel(transitionLevel, numLevels) && InOwnBlock(ownedBlockStarts, agg, l, x))
                   ==> F[l][x] == old(F)[l][x]
    {
      var tl := numLevels;
      if transitionLevel >= 0 {
        tl := transitionLevel;
      }
      ghost var F0 := F;
      var G := F;
      var localRank := 0;
      var level := 0;
      while level < tl
        invariant level <= tl
        invariant localRank == if level == 0 then 0 else LocalRank(agg, level - 1)
        invariant |G| == |F0| && forall l :: 0 <= l < |G| ==> |G[l]| == |F0[l]|
        invariant forall l, x | 0 <= l < level && InOwnBlock(ownedBlockStarts, agg, l, x)
                    :: G[l][x] == residual[l][x - OwnStart(ownedBlockStarts, agg, l)]
        invariant forall l, x | 0 <= l < |G| && 0 <= x < |G[l]|
                    :: !(l < level && InOwnBlock(ownedBlockStarts, agg, l, x)) ==> G[l][x] == F0[l][x]
      {
        if agg[level].Comm? {
          localRank := agg[level].rank;
        }
        assert localRank == LocalRank(agg, level);
        var start := ownedBlockStarts[level][localRank];
        var finish := ownedBlockStarts[level][localRank + 1];
        assert 0 <= start && finish <= |G[level]| && finish - start <= |residual[level]|;
        var i := start;
        while i < finish
          invariant start <= i <= if finish < start then start else finish
          invariant 0 <= start && finish <= |F0[level]| && finish - start <= |residual[level]|
          invariant |G| == |F0| && forall l :: 0 <= l < |G| ==> |G[l]| == |F0[l]|
          invariant forall l, x | 0 <= l < level && InOwnBlock(ownedBlockStarts, agg, l, x)
                      :: G[l][x] == residual[l][x - OwnStart(ownedBlockStarts, agg, l)]
          invariant forall x :: start <= x < i ==> G[level][x] == residual[level][x - start]
          invariant forall l, x | 0 <= l < |G| && 0 <= x < |G[l]|
                      :: !(l < level && InOwnBlock(ownedBlockStarts, agg, l, x)) && !(l == level && start <= x < i)
                         ==> G[l][x] == F0[l][x]
        {
          G := G[level := G[level][i := residual[level][i - start]]];
          i := i + 1;
        }
        level := level + 1;
      }
      F := G;
    }

    /** Every entry of the composite solution of levels [0, numLevels) becomes zero; lengths are kept. */
    method ZeroInitialGuess(numLevels: nat)
      requires numLevels <= |U|
      modifies this`U
      ensures |U| == |old(U)| && forall L :: 0 <= L < |U| ==> |U[L]| == |old(U)[L]|
      ensures forall L, i :: 0 <= L < numLevels && 0 <= i < |U[L]| ==> U[L][i] == 0.0
      ensures forall L :: numLevels <= L < |U| ==> U[L] == old(U)[L]
    {
      ghost var U0 := U;
      var W := U;
      var level := 0;
      while level < numLevels
        invariant level <= numLevels <= |U0|
        invariant |W| == |U0| && forall L :: 0 <= L < |W| ==> |W[L]| == |U0[L]|
        invariant forall L, i :: 0 <= L < level && 0 <= i < |W[L]| ==> W[L][i] == 0.0
        invariant forall L :: level <= L < |W| ==> W[L] == U0[L]
      {
        var i := 0;
        while i < |W[level]|
          invariant |W| == |U0| && forall L :: 0 <= L < |W| ==> |W[L]| == |U0[L]|
          invariant i <= |W[level]|
          invariant forall L, k :: 0 <= L < level && 0 <= k < |W[L]| ==> W[L][k] == 0.0
          invariant forall k :: 0 <= k < i ==> W[level][k] == 0.0
          invariant forall L :: level < L < |W| ==> W[L] == U0[L]
        {
          W := W[level := W[level][i := 0.0]];
          i := i + 1;
        }
        level := level + 1;
      }
      U := W;
    }

    /** Number of nodes this process owns on the finest level: the end of its last owned block. */
    function NumOwnedNodes(): int
      requires |ownedBlockStarts| > 0 && |numOwnedBlocks| > 0
      requires 0 <= numOwnedBlocks[0] < |ownedBlockStarts[0]|
      reads this
    {
      ownedBlockStarts[0][numOwnedBlocks[0]]
    }

    /**
      Adds the composite correction of the finest level into the owned
      prefix of the fine-grid solution u; entries past the owned nodes keep
      their values.
     */
    method AddSolution(u: array<real>)
      requires |ownedBlockStarts| > 0 && |numOwnedBlocks| > 0
      requires 0 <= numOwnedBlocks[0] < |ownedBlockStarts[0]|
      requires |U| > 0 && NumOwnedNodes() <= u.Length && NumOwnedNodes() <= |U[0]|
      modifies u
      ensures forall i :: 0 <= i < u.Length && i < NumOwnedNodes() ==> u[i] == old(u[i]) + U[0][i]
      ensures forall i :: 0 <= i < u.Length && NumOwnedNodes() <= i ==> u[i] == old(u[i])
    {
      var numOwned := ownedBlockStarts[0][numOwnedBlocks[0]];
      var i := 0;
      while i < numOwned
        invariant numOwned == NumOwnedNodes() && numOwned <= u.Length && numOwned <= |U[0]|
        invariant 0 <= i <= TripCount(numOwned)
        invariant forall k :: 0 <= k < i ==> u[k] == old(u[k]) + U[0][k]
        invariant forall k :: i <= k < u.Length ==> u[k] == old(u[k])
      {
        u[i] := u[i] + U[0][i];
        i := i + 1;
      }
    }

    /**
      Receive counts of the group whose run starts at `level`: the owned
      nodes of every process of the group, summed over the run.
     */
    method RecvCounts(agg: seq<LocalComm>, level: nat, tl: nat) returns (recvcounts: seq<int>)
      requires level < tl <= |agg| && agg[level].Comm? && agg[level].WellFormed()
      requires RunPartitioned(F, ownedBlockStarts, level, RunEnd(agg, level, tl), agg[level].size)
      ensures recvcounts == RunCounts(ownedBlockStarts, level, RunEnd(agg, level, tl), agg[level].size)
    {
      var n := agg[level].size;
      ghost var e := RunEnd(agg, level, tl);
      recvcounts := seq(n, _ => 0);
      var i := level;
      while i < tl
        invariant level <= i <= e
        invariant |recvcounts| == n
        invariant forall q :: 0 <= q < n ==> recvcounts[q] == RunCount(ownedBlockStarts, level, i, q)
      {
        if i > level && agg[i].Comm? {
          break;
        }
        var j := 0;
        while j < n
          invariant j <= n && |recvcounts| == n
          invariant forall q :: 0 <= q < j ==> recvcounts[q] == RunCount(ownedBlockStarts, level, i + 1, q)
          invariant forall q :: j <= q < n ==> recvcounts[q] == RunCount(ownedBlockStarts, level, i, q)
        {
          recvcounts := recvcounts[j := recvcounts[j] + (ownedBlockStarts[i][j + 1] - ownedBlockStarts[i][j])];
          j := j + 1;
        }
        i := i + 1;
      }
    }

    /** The send buffer of this process for the group whose run starts at `level`: its owned run. */
    method PackOwnedRun(agg: seq<LocalComm>, level: nat, tl: nat) returns (sendbuf: seq<real>)
      requires level < tl <= |agg| && agg[level].Comm? && agg[level].WellFormed()
      requires RunPartitioned(F, ownedBlockStarts, level, RunEnd(agg, level, tl), agg[level].size)
      ensures sendbuf == OwnedRun(F, ownedBlockStarts, level, RunEnd(agg, level, tl), agg[level].size, agg[level].rank)
    {
      var n := agg[level].size;
      var myid := agg[level].rank;
      ghost var e := RunEnd(agg, level, tl);
      sendbuf := [];
      var i := level;
      while i < tl
        invariant level <= i <= e
        invariant sendbuf == OwnedRun(F, ownedBlockStarts, level, i, n, myid)
      {
        if i > level && agg[i].Comm? {
          break;
        }
        var start := ownedBlockStarts[i][myid];
        var finish := ownedBlockStarts[i][myid + 1];
        var j := start;
        while j < finish
          invariant start <= j <= finish
          invariant sendbuf == OwnedRun(F, ownedBlockStarts, level, i, n, myid) + F[i][start..j]
        {
          sendbuf := sendbuf + [F[i][j]];
          assert F[i][start..j + 1] == F[i][start..j] + [F[i][j]];
          j := j + 1;
        }
        i := i + 1;
      }
    }

    /**
      Unpacks a buffer gathered by the group whose run starts at `level`,
      process after process: every process's owned run becomes its section
      of the buffer, and nothing outside the group's blocks changes.
     */
    method UnpackGathered(recvbuf: seq<real>, agg: seq<LocalComm>, level: nat, tl: nat)
      requires level < tl <= |agg| && agg[level].Comm? && agg[level].WellFormed()
      requires RunPartitioned(F, ownedBlockStarts, level, RunEnd(agg, level, tl), agg[level].size)
      requires PrefixSum(RunCounts(ownedBlockStarts, level, RunEnd(agg, level, tl), agg[level].size), agg[level].size)
               <= |recvbuf|
      modifies this`F
      ensures |F| == |old(F)| && forall l :: 0 <= l < |F| ==> |F[l]| == |old(F)[l]|
      ensures RunPartitioned(F, ownedBlockStarts, level, RunEnd(agg, level, tl), agg[level].size)
      ensures forall p :: 0 <= p < agg[level].size ==>
                OwnedRun(F, ownedBlockStarts, level, RunEnd(agg, level, tl), agg[level].size, p)
                == GatheredSection(old(F), ownedBlockStarts, level, RunEnd(agg, level, tl), agg[level].size, recvbuf, p)
      ensures forall l :: 0 <= l < |F| && !(level <= l < RunEnd(agg, level, tl)) ==> F[l] == old(F)[l]
      ensures forall l, x | level <= l < RunEnd(agg, level, tl) && 0 <= x < |F[l]|
                :: !(ownedBlockStarts[l][0] <= x < ownedBlockStarts[l][agg[level].size]) ==> F[l][x] == old(F)[l][x]
    {
      var n := agg[level].size;
      ghost var e := RunEnd(agg, level, tl);
      ghost var counts := RunCounts(ownedBlockStarts, level, e, n);
      var obs := ownedBlockStarts;
      RunCountsNonNegative(F, obs, level, e, n);
      ghost var F0 := F;
      var G := F;
      var cnt := 0;
      var proc := 0;
      while proc < n
        invariant proc <= n
        invariant cnt == PrefixSum(counts, proc)
        invariant |G| == |F0| && forall l :: 0 <= l < |G| ==> |G[l]| == |F0[l]|
        invariant RunPartitioned(G, obs, level, e, n)
        invariant forall p :: 0 <= p < proc ==>
                    OwnedRun(G, obs, level, e, n, p) == GatheredSection(F0, obs, level, e, n, recvbuf, p)
        invariant forall l :: 0 <= l < |G| && !(level <= l < e) ==> G[l] == F0[l]
        invariant forall l, x | level <= l < e && 0 <= x < |G[l]|
                    :: !(obs[l][0] <= x < obs[l][proc]) ==> G[l][x] == F0[l][x]
      {
        PrefixSumGrows(counts, proc, proc + 1);
        PrefixSumGrows(counts, proc + 1, n);
        var H, next := UnpackProcessRun(G, obs, recvbuf, agg, level, tl, proc, cnt);
        forall p | 0 <= p < proc
          ensures OwnedRun(H, obs, level, e, n, p) == OwnedRun(G, obs, level, e, n, p)
        {
          OwnedRunFrame(H, G, obs, level, e, n, p);
        }
        G, cnt := H, next;
        proc := proc + 1;
      }
      F := G;
    }

    /**
      One group's all-gather: receive counts, displacements, the own send
      buffer, the collective, and the unpack.  Afterwards the owned run of
      every process of the group holds what that process contributed (this
      process's own values stay), and nothing outside the group's blocks
      changes.
     */
    method GatherGroup(agg: seq<LocalComm>, level: nat, tl: nat, peerSendBuffers: seq<seq<real>>)
      requires level < tl <= |agg| && agg[level].Comm? && agg[level].WellFormed()
      requires RunPartitioned(F, ownedBlockStarts, level, RunEnd(agg, level, tl), agg[level].size)
      requires PeersMatchCounts(ownedBlockStarts, level, RunEnd(agg, level, tl), agg[level].size, agg[level].rank,
                                peerSendBuffers)
      modifies this`F
      ensures |F| == |old(F)| && forall l :: 0 <= l < |F| ==> |F[l]| == |old(F)[l]|
      ensures RunPartitioned(F, ownedBlockStarts, level, RunEnd(agg, level, tl), agg[level].size)
      ensures forall p :: 0 <= p < agg[level].size ==>
                OwnedRun(F, ownedBlockStarts, level, RunEnd(agg, level, tl), agg[level].size, p)
                == Contributions(old(F), ownedBlockStarts, level, RunEnd(agg, level, tl), agg[level].size,
                                 agg[level].rank, peerSendBuffers)[p]
      ensures forall l :: 0 <= l < |F| && !(level <= l < RunEnd(agg, level, tl)) ==> F[l] == old(F)[l]
      ensures forall l, x | level <= l < RunEnd(agg, level, tl) && 0 <= x < |F[l]|
                :: !(ownedBlockStarts[l][0] <= x < ownedBlockStarts[l][agg[level].size]) ==> F[l][x] == old(F)[l][x]
    {
      var n := agg[level].size;
      var myid := agg[level].rank;
      ghost var e := RunEnd(agg, level, tl);
      var recvcounts := RecvCounts(agg, level, tl);
      var displs := Displacements(recvcounts);
      var sendbuf := PackOwnedRun(agg, level, tl);
      ghost var contribs := Contributions(F, ownedBlockStarts, level, e, n, myid, peerSendBuffers);
      assert peerSendBuffers[myid := sendbuf] == contribs;
      ContributionLengths(F, ownedBlockStarts, level, e, n, myid, peerSendBuffers);
      var recvbuf := Allgatherv(peerSendBuffers[myid := sendbuf], recvcounts, displs);
      forall p | 0 <= p < n
        ensures GatheredSection(F, ownedBlockStarts, level, e, n, recvbuf, p) == contribs[p]
      {
        AllgathervSection(F, ownedBlockStarts, level, e, n, contribs, displs, p);
      }
      UnpackGathered(recvbuf, agg, level, tl);
    }

    /**
      The local all-gather of every agglomeration group below the
      transition level, level by level.  Afterwards, for every group, the
      owned run of each of its processes holds what that process sent (this
      process's own values stay), and every node outside the groups' blocks
      keeps its value.
     */
    method AgglomeratedProcessorsLocalResidualAllgather(agg: seq<LocalComm>, transitionLevel: int, numLevels: nat,
                                                         peerSendBuffers: seq<seq<seq<real>>>)
      requires transitionLevel <= numLevels <= |agg|
      requires RunsPartitioned(F, ownedBlockStarts, agg, EffectiveTransitionLevel(transitionLevel, numLevels))
      requires PeersSized(F, ownedBlockStarts, agg, EffectiveTransitionLevel(transitionLevel, numLevels), peerSendBuffers)
      modifies this`F
      ensures |F| == |old(F)| && forall l :: 0 <= l < |F| ==> |F[l]| == |old(F)[l]|
      ensures RunsPartitioned(F, ownedBlockStarts, agg, EffectiveTransitionLevel(transitionLevel, numLevels))
      ensures var tl := EffectiveTransitionLevel(transitionLevel, numLevels);
              forall a, p | 0 <= a < tl && agg[a].Comm? && 0 <= p < agg[a].size
                :: OwnedRun(F, ownedBlockStarts, a, RunEnd(agg, a, tl), agg[a].size, p)
                   == Contributions(old(F), ownedBlockStarts, a, RunEnd(agg, a, tl), agg[a].size, agg[a].rank,
                                    peerSendBuffers[a])[p]
      ensures var tl := EffectiveTransitionLevel(transitionLevel, numLevels);
              forall l, x | 0 <= l < |F| && 0 <= x < |F[l]|
                :: !(l < tl && Covered(old(F), ownedBlockStarts, agg, tl, l, x)) ==> F[l][x] == old(F)[l][x]
    {
      var tl := numLevels;
      if transitionLevel >= 0 {
        tl := transitionLevel;
      }
      ghost var F0 := F;
      var level := 0;
      while level < tl
        invariant GatherInvariant(F0, F, ownedBlockStarts, agg, tl, peerSendBuffers, level)
      {
        if agg[level].Comm? {
          GatherGroupReady(F0, F, ownedBlockStarts, agg, tl, peerSendBuffers, level);
          ghost var before := F;
          GatherGroup(agg, level, tl, peerSendBuffers[level]);
          GatherStep(F0, before, F, ownedBlockStarts, agg, tl, peerSendBuffers, level);
        } else {
          GatherSkip(F0, F, ownedBlockStarts, agg, tl, peerSendBuffers, level);
        }
        level := level + 1;
      }
      GatherComplete(F0, F, ownedBlockStarts, agg, tl, peerSendBuffers);
    }
  }

  /** Copies buffer entries cnt0, cnt0 + 1, ... into nodes [start, finish) of level i. */
  method CopyBlock(G: seq<seq<real>>, recvbuf: seq<real>, i: nat, start: int, finish: int, cnt0: nat)
    returns (H: seq<seq<real>>)
    requires i < |G| && 0 <= start <= finish <= |G[i]| && cnt0 + (finish - start) <= |recvbuf|
    ensures |H| == |G| && forall l :: 0 <= l < |H| ==> |H[l]| == |G[l]|
    ensures forall l :: 0 <= l < |H| && l != i ==> H[l] == G[l]
    ensures H[i][start..finish] == recvbuf[cnt0..cnt0 + (finish - start)]
    ensures forall x :: 0 <= x < |H[i]| && !(start <= x < finish) ==> H[i][x] == G[i][x]
  {
    H := G;
    var j := start;
    while j < finish
      invariant start <= j <= finish
      invariant |H| == |G| && forall l :: 0 <= l < |H| ==> |H[l]| == |G[l]|
      invariant forall l :: 0 <= l < |H| && l != i ==> H[l] == G[l]
      invariant forall x :: start <= x < j ==> H[i][x] == recvbuf[cnt0 + (x - start)]
      invariant forall x :: 0 <= x < |H[i]| && !(start <= x < j) ==> H[i][x] == G[i][x]
    {
      H := H[i := H[i][j := recvbuf[cnt0 + (j - start)]]];
      j := j + 1;
    }
  }

  /**
    Unpacks the section of process `proc` from a gathered buffer, starting
    at cnt0: its owned run becomes that section, and no node outside proc's
    blocks of the run changes.
   */
  method UnpackProcessRun(G: seq<seq<real>>, obs: seq<seq<int>>, recvbuf: seq<real>, agg: seq<LocalComm>,
                          level: nat, tl: nat, proc: nat, cnt0: nat)
    returns (H: seq<seq<real>>, cnt: nat)
    requires level < tl <= |agg| && agg[level].Comm? && agg[level].WellFormed() && proc < agg[level].size
    requires RunPartitioned(G, obs, level, RunEnd(agg, level, tl), agg[level].size)
    requires cnt0 + RunCount(obs, level, RunEnd(agg, level, tl), proc) <= |recvbuf|
    ensures |H| == |G| && forall l :: 0 <= l < |H| ==> |H[l]| == |G[l]|
    ensures RunPartitioned(H, obs, level, RunEnd(agg, level, tl), agg[level].size)
    ensures cnt == cnt0 + RunCount(obs, level, RunEnd(agg, level, tl), proc)
    ensures cnt0 <= cnt <= |recvbuf|
    ensures OwnedRun(H, obs, level, RunEnd(agg, level, tl), agg[level].size, proc) == recvbuf[cnt0..cnt]
    ensures forall l :: 0 <= l < |H| && !(level <= l < RunEnd(agg, level, tl)) ==> H[l] == G[l]
    ensures forall l, x | level <= l < RunEnd(agg, level, tl) && 0 <= x < |H[l]|
              :: !(obs[l][proc] <= x < obs[l][proc + 1]) ==> H[l][x] == G[l][x]
  {
    var n := agg[level].size;
    ghost var e := RunEnd(agg, level, tl);
    RunCountGrows(G, obs, level, level, e, n, proc);
    H := G;
    cnt := cnt0;
    var i := level;
    while i < tl
      invariant level <= i <= e
      invariant |H| == |G| && forall l :: 0 <= l < |H| ==> |H[l]| == |G[l]|
      invariant RunPartitioned(H, obs, level, e, n)
      invariant cnt == cnt0 + RunCount(obs, level, i, proc)
      invariant cnt0 <= cnt <= cnt0 + RunCount(obs, level, e, proc)
      invariant OwnedRun(H, obs, level, i, n, proc) == recvbuf[cnt0..cnt]
      invariant forall l :: 0 <= l < |H| && !(level <= l < i) ==> H[l] == G[l]
      invariant forall l, x | level <= l < i && 0 <= x < |H[l]|
                  :: !(obs[l][proc] <= x < obs[l][proc + 1]) ==> H[l][x] == G[l][x]
    {
      if i > level && agg[i].Comm? {
        break;
      }
      var start := obs[i][proc];
      var finish := obs[i][proc + 1];
      RunCountGrows(G, obs, level, i + 1, e, n, proc);
      var before := H;
      H := CopyBlock(H, recvbuf, i, start, finish, cnt);
      OwnedRunFrame(H, before, obs, level, i, n, proc);
      OwnedRunExtend(H, obs, level, i, n, proc, recvbuf, cnt0, cnt);
      cnt := cnt + (finish - start);
      i := i + 1;
    }
  }

  /** Displacements of a gather: each process's entries start after those of the processes before it. */
  method Displacements(recvcounts: seq<int>) returns (displs: seq<int>)
    ensures |displs| == |recvcounts|
    ensures forall p :: 0 <= p < |displs| ==> displs[p] == PrefixSum(recvcounts, p)
  {
    displs := seq(|recvcounts|, _ => 0);
    var i := 1;
    while i < |recvcounts|
      invariant 1 <= i && |displs| == |recvcounts|
      invariant forall p :: 0 <= p < i && p < |displs| ==> displs[p] == PrefixSum(recvcounts, p)
    {
      displs := displs[i := displs[i - 1] + recvcounts[i - 1]];
      i := i + 1;
    }
  }

  /** Where this process's owned block of level l starts, for the local rank of that level. */
  function OwnStart(obs: seq<seq<int>>, agg: seq<LocalComm>, l: nat): int
    requires l < |agg| && l < |obs| && LocalRank(agg, l) + 1 < |obs[l]|
  {
    obs[l][LocalRank(agg, l)]
  }

  /** Where this process's owned block of level l ends. */
  function OwnEnd(obs: seq<seq<int>>, agg: seq<LocalComm>, l: nat): int
    requires l < |agg| && l < |obs| && LocalRank(agg, l) + 1 < |obs[l]|
  {
    obs[l][LocalRank(agg, l) + 1]
  }

  /** Node x of level l lies in this process's owned block. */
  predicate InOwnBlock(obs: seq<seq<int>>, agg: seq<LocalComm>, l: nat, x: int)
    requires l < |agg| && l < |obs| && LocalRank(agg, l) + 1 < |obs[l]|
  {
    OwnStart(obs, agg, l) <= x < OwnEnd(obs, agg, l)
  }

  /**
    Below the transition level, every level's owned block of the local rank
    lies inside the composite grid and the level's residual covers it.
   */
  predicate SeedFits(F: seq<seq<real>>, obs: seq<seq<int>>, residual: seq<seq<real>>, agg: seq<LocalComm>, tl: nat)
  {
    && tl <= |F| && tl <= |obs| && tl <= |residual| && tl <= |agg|
    && forall l :: 0 <= l < tl ==>
         && LocalRank(agg, l) + 1 < |obs[l]|
         && 0 <= OwnStart(obs, agg, l)
         && OwnEnd(obs, agg, l) <= |F[l]|
         && OwnEnd(obs, agg, l) - OwnStart(obs, agg, l) <= |residual[l]|
  }
}
