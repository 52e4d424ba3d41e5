/**
  The wire format of one residual message, as PackResidualBuffer writes it
  and UnpackResidualBuffer reads it.  A message to (or from) one partner
  carries, for every level from `currentLevel` up to `numLevels - 1` in
  turn, the residual values of the listed composite-grid nodes, in list
  order.
 */
module ResidualBuffer {
  import opened CompositeLevels

  /**
    On levels [lo, hi) the index lists are at least as long as their trip
    counts and every listed node lies inside its level's composite grid.
   */
  predicate IndexListsFit(F: seq<seq<real>>, idx: seq<seq<int>>, counts: seq<int>, lo: nat, hi: nat)
  {
    && hi <= |F| && hi <= |idx| && hi <= |counts|
    && forall L :: lo <= L < hi ==> LevelListFits(|F[L]|, idx[L], TripCount(counts[L]))
  }

  /** The first n entries of `idx` exist and are node indices below `size`. */
  predicate LevelListFits(size: int, idx: seq<int>, n: nat)
  {
    n <= |idx| && forall i :: 0 <= i < n ==> 0 <= idx[i] < size
  }

  /** The values one level contributes to a message: `f[flag[i]]` for i below n. */
  function LevelPacked(f: seq<real>, flag: seq<int>, n: nat): seq<real>
    requires n <= |flag|
    requires forall i :: 0 <= i < n ==> 0 <= flag[i] < |f|
  {
    seq(n, i requires 0 <= i < n => f[flag[i]])
  }

  /** The message: level-major, then list order, over levels [lo, hi). */
  function Packed(F: seq<seq<real>>, sendFlag: seq<seq<int>>, numSendNodes: seq<int>, lo: nat, hi: nat): (buf: seq<real>)
    requires IndexListsFit(F, sendFlag, numSendNodes, lo, hi)
    ensures |buf| == Offset(numSendNodes, lo, hi)
    decreases hi
  {
    if hi <= lo then []
    else
      Packed(F, sendFlag, numSendNodes, lo, hi - 1)
        + LevelPacked(F[hi - 1], sendFlag[hi - 1], TripCount(numSendNodes[hi - 1]))
  }

  /** Node i of level L sits at position Offset(lo, L) + i of the message. */
  lemma {:induction false} PackedAt(F: seq<seq<real>>, sendFlag: seq<seq<int>>, numSendNodes: seq<int>,
                                    lo: nat, hi: nat, L: nat, i: nat)
    requires IndexListsFit(F, sendFlag, numSendNodes, lo, hi)
    requires lo <= L < hi && i < TripCount(numSendNodes[L])
    ensures Offset(numSendNodes, lo, L) + i < Offset(numSendNodes, lo, hi)
    ensures Packed(F, sendFlag, numSendNodes, lo, hi)[Offset(numSendNodes, lo, L) + i] == F[L][sendFlag[L][i]]
    decreases hi
  {
    if L < hi - 1 {
      PackedAt(F, sendFlag, numSendNodes, lo, hi - 1, L, i);
      OffsetMonotone(numSendNodes, lo, L + 1, hi - 1);
    }
  }

  /** The writes of one level: `f[map[i]] := buf[base + i]` for i below n, in that order. */
  function LevelUnpacked(f: seq<real>, recvMap: seq<int>, buf: seq<real>, base: nat, n: nat): (r: seq<real>)
    requires n <= |recvMap| && base + n <= |buf|
    requires forall i :: 0 <= i < n ==> 0 <= recvMap[i] < |f|
    ensures |r| == |f|
  {
    if n == 0 then f
    else LevelUnpacked(f, recvMap, buf, base, n - 1)[recvMap[n - 1] := buf[base + n - 1]]
  }

  /**
    The composite grids after unpacking a message into levels [lo, hi),
    level after level as the receive loop goes; other levels keep their values.
   */
  function Unpacked(F: seq<seq<real>>, recvMap: seq<seq<int>>, numRecvNodes: seq<int>, buf: seq<real>,
                    lo: nat, hi: nat): (G: seq<seq<real>>)
    requires IndexListsFit(F, recvMap, numRecvNodes, lo, hi)
    requires Offset(numRecvNodes, lo, hi) <= |buf|
    ensures |G| == |F| && forall L :: 0 <= L < |F| ==> |G[L]| == |F[L]|
    decreases hi
  {
    if hi <= lo then F
    else
      Unpacked(F, recvMap, numRecvNodes, buf, lo, hi - 1)[hi - 1 :=
        LevelUnpacked(F[hi - 1], recvMap[hi - 1], buf, Offset(numRecvNodes, lo, hi - 1), TripCount(numRecvNodes[hi - 1]))]
  }

  /** Level L of `Unpacked`: the level's own writes when L is in range, its old values otherwise. */
  lemma {:induction false} UnpackedLevel(F: seq<seq<real>>, recvMap: seq<seq<int>>, numRecvNodes: seq<int>, buf: seq<real>,
                                         lo: nat, hi: nat, L: nat)
    requires IndexListsFit(F, recvMap, numRecvNodes, lo, hi)
    requires Offset(numRecvNodes, lo, hi) <= |buf|
    requires L < |F|
    ensures lo <= L < hi ==> Offset(numRecvNodes, lo, L) + TripCount(numRecvNodes[L]) <= |buf|
    ensures Unpacked(F, recvMap, numRecvNodes, buf, lo, hi)[L] ==
      if lo <= L < hi then
        LevelUnpacked(F[L], recvMap[L], buf, Offset(numRecvNodes, lo, L), TripCount(numRecvNodes[L]))
      else F[L]
    decreases hi
  {
    if lo < hi {
      UnpackedLevel(F, recvMap, numRecvNodes, buf, lo, hi - 1, L);
      if L < hi - 1 {
        OffsetMonotone(numRecvNodes, lo, L + 1, hi - 1);
      }
    }
  }

  predicate InjectiveOn(recvMap: seq<int>, n: nat)
    requires n <= |recvMap|
  {
    forall i, j :: 0 <= i < j < n ==> recvMap[i] != recvMap[j]
  }

  /**
    Unpacking one level: a node hit by an injective map receives its buffer
    entry; a node that no map entry names keeps its value.
   */
  lemma {:induction false} LevelUnpackedAt(f: seq<real>, recvMap: seq<int>, buf: seq<real>, base: nat, n: nat, k: int)
    requires n <= |recvMap| && base + n <= |buf|
    requires forall i :: 0 <= i < n ==> 0 <= recvMap[i] < |f|
    requires 0 <= k < |f|
    ensures (forall i :: 0 <= i < n ==> recvMap[i] != k) ==> LevelUnpacked(f, recvMap, buf, base, n)[k] == f[k]
    ensures InjectiveOn(recvMap, n) ==>
      forall i :: 0 <= i < n && recvMap[i] == k ==> LevelUnpacked(f, recvMap, buf, base, n)[k] == buf[base + i]
  {
    if n > 0 {
      LevelUnpackedAt(f, recvMap, buf, base, n - 1, k);
    }
  }

  /**
    Round trip of the wire format: when sender and receiver agree on every
    level's count and each receive map is injective, unpacking a packed
    message stores, at the receiver's i-th mapped node of level L, the
    sender's value at its i-th flagged node of level L.
   */
  lemma RoundTrip(F: seq<seq<real>>, sendFlag: seq<seq<int>>, numSendNodes: seq<int>,
                  G: seq<seq<real>>, recvMap: seq<seq<int>>, numRecvNodes: seq<int>,
                  lo: nat, hi: nat, L: nat, i: nat)
    requires IndexListsFit(F, sendFlag, numSendNodes, lo, hi)
    requires IndexListsFit(G, recvMap, numRecvNodes, lo, hi)
    requires forall l :: lo <= l < hi ==> TripCount(numSendNodes[l]) == TripCount(numRecvNodes[l])
    requires forall l :: lo <= l < hi ==> InjectiveOn(recvMap[l], TripCount(numRecvNodes[l]))
    requires lo <= L < hi && i < TripCount(numRecvNodes[L])
    ensures Offset(numRecvNodes, lo, hi) <= |Packed(F, sendFlag, numSendNodes, lo, hi)|
    ensures Unpacked(G, recvMap, numRecvNodes, Packed(F, sendFlag, numSendNodes, lo, hi), lo, hi)[L][recvMap[L][i]]
            == F[L][sendFlag[L][i]]
  {
    OffsetAgrees(numSendNodes, numRecvNodes, lo, hi);
    OffsetAgrees(numSendNodes, numRecvNodes, lo, L);
    var buf := Packed(F, sendFlag, numSendNodes, lo, hi);
    PackedAt(F, sendFlag, numSendNodes, lo, hi, L, i);
    OffsetMonotone(numRecvNodes, lo, L + 1, hi);
    UnpackedLevel(G, recvMap, numRecvNodes, buf, lo, hi, L);
    LevelUnpackedAt(G[L], recvMap[L], buf, Offset(numRecvNodes, lo, L), TripCount(numRecvNodes[L]), recvMap[L][i]);
  }

  /** Unpacking changes no level outside [lo, hi) and no node that the level's map does not name. */
  lemma UnpackedUntouched(F: seq<seq<real>>, recvMap: seq<seq<int>>, numRecvNodes: seq<int>, buf: seq<real>,
                          lo: nat, hi: nat, L: nat, k: int)
    requires IndexListsFit(F, recvMap, numRecvNodes, lo, hi)
    requires Offset(numRecvNodes, lo, hi) <= |buf|
    requires L < |F| && 0 <= k < |F[L]|
    requires lo <= L < hi ==> forall i :: 0 <= i < TripCount(numRecvNodes[L]) ==> recvMap[L][i] != k
    ensures Unpacked(F, recvMap, numRecvNodes, buf, lo, hi)[L][k] == F[L][k]
  {
    UnpackedLevel(F, recvMap, numRecvNodes, buf, lo, hi, L);
    if lo <= L < hi {
      LevelUnpackedAt(F[L], recvMap[L], buf, Offset(numRecvNodes, lo, L), TripCount(numRecvNodes[L]), k);
    }
  }
}
