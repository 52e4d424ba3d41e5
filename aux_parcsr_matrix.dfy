/**
  The auxiliary matrix the IJ interface uses while a ParCSR matrix is being
  assembled: per-row staging buffers for column indices and values (or
  diagonal/off-diagonal insertion indices), and a stash for entries that
  belong to other processes.  Pointers become `array?` fields (null where
  the C pointer is NULL); big integers are `int`, complex values `real`.
 */
module AuxParCsr {

  /** Where the matrix is assembled. */
  datatype MemoryLocation = Host | Device

  /** The row capacity given to every row when the caller supplied none. */
  const DefaultRowSpace: int := 30

  class AuxParCsrMatrix {
    var localNumRows: int
    var localNumCols: int
    var needAux: int
    var maxOffProcElmts: int
    var currentOffProcElmts: int
    var offProcIIndx: int
    /** Capacity of every row (the caller's `sizes`, shared, not copied). */
    var rowSpace: array?<int>
    /** Number of entries staged in every row. */
    var rowLength: array?<int>
    /** Per-row column indices and values. */
    var auxJ: array?<array?<int>>
    var auxData: array?<array?<real>>
    var indxDiag: array?<int>
    var indxOffd: array?<int>
    var diagSizes: array?<int>
    var offdSizes: array?<int>
    /** Stash for off-process entries: row/count pairs, columns, values. */
    var offProcI: array?<int>
    var offProcJ: array?<int>
    var offProcData: array?<real>
    var memoryLocation: MemoryLocation

    /**
      A new auxiliary matrix with the given local sizes and row capacities:
      it needs the per-row buffers, has no off-process stash yet, nothing
      allocated, and lives on the host.
     */
    constructor Create(localNumRows: int, localNumCols: int, sizes: array?<int>)
      ensures this.localNumRows == localNumRows && this.localNumCols == localNumCols
      ensures rowSpace == sizes
      ensures needAux == 1
      ensures maxOffProcElmts == 0 && currentOffProcElmts == 0 && offProcIIndx == 0
      ensures rowLength == null && auxJ == null && auxData == null
      ensures indxDiag == null && indxOffd == null && diagSizes == null && offdSizes == null
      ensures offProcI == null && offProcJ == null && offProcData == null
      ensures memoryLocation == Host
    {
      this.localNumRows := localNumRows;
      this.localNumCols := localNumCols;
      rowSpace := sizes;
      needAux := 1;
      maxOffProcElmts := 0;
      currentOffProcElmts := 0;
      offProcIIndx := 0;
      rowLength := null;
      auxJ := null;
      auxData := null;
      indxDiag := null;
      indxOffd := null;
      diagSizes := null;
      offdSizes := null;
      offProcI := null;
      offProcJ := null;
      offProcData := null;
      memoryLocation := Host;
    }

    /**
      Allocates the assembly storage for `memoryLocation`.  A negative row
      count fails with -1 and an empty matrix needs nothing; both only
      record the memory location.  Device assembly only marks that the
      per-row buffers are needed.  Host assembly allocates the off-process
      stash when a maximum is set, and then either the per-row buffers or
      the insertion indices, as the need for per-row buffers says.
     */
    method Initialize(memoryLocation: MemoryLocation) returns (code: int)
      requires localNumRows > 0 && memoryLocation == Host && needAux != 0 && rowSpace != null ==>
                 rowSpace.Length >= localNumRows && forall i :: 0 <= i < localNumRows ==> rowSpace[i] >= 0
      modifies this`memoryLocation, this`needAux
      modifies this`offProcI, this`offProcJ, this`offProcData
      modifies this`rowSpace, this`rowLength, this`auxJ, this`auxData, this`indxDiag, this`indxOffd
      ensures this.memoryLocation == memoryLocation
      ensures code == if localNumRows < 0 then -1 else 0
      ensures needAux == if localNumRows > 0 && memoryLocation != Host then 1 else old(needAux)
      ensures !(localNumRows > 0 && memoryLocation == Host) ==>
                && offProcI == old(offProcI) && offProcJ == old(offProcJ) && offProcData == old(offProcData)
                && RowStorageUnchanged() && indxDiag == old(indxDiag) && indxOffd == old(indxOffd)
      ensures localNumRows > 0 && memoryLocation == Host ==>
                && (maxOffProcElmts > 0 ==> StashAllocated())
                && (maxOffProcElmts <= 0 ==>
                      offProcI == old(offProcI) && offProcJ == old(offProcJ) && offProcData == old(offProcData))
                && (needAux != 0 ==> RowStorageAllocated() && indxDiag == old(indxDiag) && indxOffd == old(indxOffd))
                && (needAux == 0 ==> RowStorageUnchanged() && InsertionIndicesAllocated())
    {
      this.memoryLocation := memoryLocation;
      if localNumRows < 0 {
        return -1;
      }
      if localNumRows == 0 {
        return 0;
      }
      if memoryLocation != Host {
        needAux := 1;
      } else {
        if maxOffProcElmts > 0 {
          AllocateStash();
        }
        if needAux != 0 {
          AllocateRowStorage();
        } else {
          AllocateInsertionIndices();
        }
      }
      return 0;
    }

    /**
      The off-process stash is freshly allocated and zero-filled: two row
      integers per entry, then a column and a value per entry.
     */
    twostate predicate StashAllocated()
      reads this, offProcI, offProcJ, offProcData
    {
      && offProcI != null && fresh(offProcI) && offProcI.Length == 2 * maxOffProcElmts
      && offProcJ != null && fresh(offProcJ) && offProcJ.Length == maxOffProcElmts
      && offProcData != null && fresh(offProcData) && offProcData.Length == maxOffProcElmts
      && (forall k :: 0 <= k < offProcI.Length ==> offProcI[k] == 0)
      && (forall k :: 0 <= k < offProcJ.Length ==> offProcJ[k] == 0)
      && (forall k :: 0 <= k < offProcData.Length ==> offProcData[k] == 0.0)
    }

    /** The per-row fields still hold what they held before. */
    twostate predicate RowStorageUnchanged()
      reads this
    {
      rowSpace == old(rowSpace) && rowLength == old(rowLength) && auxJ == old(auxJ) && auxData == old(auxData)
    }

    /**
      The per-row storage of host assembly: the row capacities are the
      caller's, or fresh ones of 30 entries each; the row lengths are the
      old ones, or fresh zeroed ones; and both per-row buffers are fresh,
      with distinct zero-filled rows of those capacities.
     */
    twostate predicate RowStorageAllocated()
      reads this, rowSpace, rowLength, auxJ, auxData
      reads if auxJ == null then {} else set i | 0 <= i < auxJ.Length :: auxJ[i]
      reads if auxData == null then {} else set i | 0 <= i < auxData.Length :: auxData[i]
    {
      && rowSpace != null && rowLength != null && auxJ != null && auxData != null
      && (old(rowSpace) != null ==> rowSpace == old(rowSpace))
      && (old(rowSpace) == null ==>
            fresh(rowSpace) && rowSpace.Length == localNumRows
            && forall i :: 0 <= i < localNumRows ==> rowSpace[i] == DefaultRowSpace)
      && (old(rowLength) != null ==> rowLength == old(rowLength))
      && (old(rowLength) == null ==>
            fresh(rowLength) && rowLength.Length == localNumRows
            && forall i :: 0 <= i < localNumRows ==> rowLength[i] == 0)
      && fresh(auxJ) && fresh(auxData) && RowBuffers(auxJ, auxData, rowSpace, localNumRows)
      && (forall i :: 0 <= i < localNumRows ==> fresh(auxJ[i]) && fresh(auxData[i]))
      && DistinctRows(auxJ, auxData, localNumRows)
    }

    /** Fresh zeroed insertion indices, one per row, for the diagonal and the off-diagonal part. */
    twostate predicate InsertionIndicesAllocated()
      reads this, indxDiag, indxOffd
    {
      && indxDiag != null && fresh(indxDiag) && indxDiag.Length == localNumRows
      && indxOffd != null && fresh(indxOffd) && indxOffd.Length == localNumRows
      && (forall i :: 0 <= i < localNumRows ==> indxDiag[i] == 0 && indxOffd[i] == 0)
    }

    /** Allocates the off-process stash (the host branch when a maximum is set). */
    method AllocateStash()
      requires maxOffProcElmts > 0
      modifies this`offProcI, this`offProcJ, this`offProcData
      ensures StashAllocated()
    {
      offProcI := new int[2 * maxOffProcElmts](_ => 0);
      offProcJ := new int[maxOffProcElmts](_ => 0);
      offProcData := new real[maxOffProcElmts](_ => 0.0);
    }

    /** Allocates the per-row buffers, with default capacities and zeroed lengths where none exist. */
    method AllocateRowStorage()
      requires localNumRows > 0
      requires rowSpace != null ==>
                 rowSpace.Length >= localNumRows && forall i :: 0 <= i < localNumRows ==> rowSpace[i] >= 0
      modifies this`rowSpace, this`rowLength, this`auxJ, this`auxData
      ensures RowStorageAllocated()
    {
      var space := rowSpace;
      if space == null {
        space := new int[localNumRows](_ => DefaultRowSpace);
      }
      if rowLength == null {
        rowLength := new int[localNumRows](_ => 0);
      }
      var aj, ad := AllocateRowBuffers(space, localNumRows);
      rowSpace, auxJ, auxData := space, aj, ad;
    }

    /** Allocates the diagonal and off-diagonal insertion indices. */
    method AllocateInsertionIndices()
      requires localNumRows > 0
      modifies this`indxDiag, this`indxOffd
      ensures InsertionIndicesAllocated()
    {
      indxDiag := new int[localNumRows](_ => 0);
      indxOffd := new int[localNumRows](_ => 0);
    }
  }

  /**
    The per-row buffers of `rows` rows: row i of both has the capacity
    space[i] and is zero-filled.
   */
  predicate RowBuffers(aj: array<array?<int>>, ad: array<array?<real>>, space: array<int>, rows: int)
    reads aj, ad, space, set i | 0 <= i < aj.Length :: aj[i], set i | 0 <= i < ad.Length :: ad[i]
  {
    && aj.Length == rows && ad.Length == rows && rows <= space.Length
    && (forall i :: 0 <= i < rows ==> aj[i] != null && aj[i].Length == space[i])
    && (forall i :: 0 <= i < rows ==> ad[i] != null && ad[i].Length == space[i])
    && (forall i, k :: 0 <= i < rows && 0 <= k < space[i] ==> aj[i][k] == 0 && ad[i][k] == 0.0)
  }

  /** No two rows of either per-row buffer are the same array. */
  predicate DistinctRows(aj: array<array?<int>>, ad: array<array?<real>>, rows: int)
    reads aj, ad
  {
    && rows <= aj.Length && rows <= ad.Length
    && (forall i, j :: 0 <= i < j < rows ==> aj[i] != aj[j])
    && (forall i, j :: 0 <= i < j < rows ==> ad[i] != ad[j])
  }

  /** Allocates zero-filled rows of the given capacities for the column indices and the values. */
  method AllocateRowBuffers(space: array<int>, rows: int) returns (aj: array<array?<int>>, ad: array<array?<real>>)
    requires 0 <= rows <= space.Length && forall i :: 0 <= i < rows ==> space[i] >= 0
    ensures fresh(aj) && fresh(ad)
    ensures RowBuffers(aj, ad, space, rows)
    ensures forall i :: 0 <= i < rows ==> fresh(aj[i]) && fresh(ad[i])
    ensures DistinctRows(aj, ad, rows)
  {
    aj := new array?<int>[rows];
    ad := new array?<real>[rows];
    var i := 0;
    while i < rows
      invariant 0 <= i <= rows
      invariant forall k :: 0 <= k < i ==> aj[k] != null && fresh(aj[k]) && aj[k].Length == space[k]
      invariant forall k :: 0 <= k < i ==> ad[k] != null && fresh(ad[k]) && ad[k].Length == space[k]
      invariant forall k, m :: 0 <= k < i && 0 <= m < space[k] ==> aj[k][m] == 0 && ad[k][m] == 0.0
      invariant DistinctRows(aj, ad, i)
    {
      aj[i] := new int[space[i]](_ => 0);
      ad[i] := new real[space[i]](_ => 0.0);
      i := i + 1;
    }
  }
}
