# AMG-DD solve cycle and IJ auxiliary matrix: a Dafny model

This project models two sequential pieces of hypre.

**The AMG-DD (Algebraic Multigrid with Domain Decomposition) solve cycle** of `par_amgdd_solve.c`. Every process keeps a *composite grid* per coarsening level. It holds a residual vector `F` and a solution vector `U`, and an `OwnedBlockStarts` partition of the owned nodes among the processes of an agglomeration group. The model covers:

- the residual message wire format: `PackResidualBuffer` and `UnpackResidualBuffer`, level-major then list order;
- seeding of the owned residual blocks below the transition level;
- the local all-gather among agglomerated processes: receive counts, displacements, the own send buffer, the collective and the unpack;
- `ZeroInitialGuess` and `AddSolution`;
- the loop control of the outer solve and of the three FAC (Fast Adaptive Composite) stopping policies of one cycle.

**The auxiliary ParCSR matrix** of `aux_parcsr_matrix.c`: `Create`, which sets defaults, and `Initialize_v2`, which allocates per-row staging buffers, insertion indices or an off-process stash by branch, or returns -1.

Modules:

- `CompositeLevels`: loop trip counts, sums of per-level counts, the transition-level normalisation, and the local communicator of a level.
- `ResidualBuffer`: the message format as functions, with the pack/unpack round trip.
- `Agglomeration`: runs of levels, owned runs, concatenation, the all-gather as concatenation, and the lemmas behind the level loop.
- `CompGrids`: the class `CompositeGrids`, whose `F` and `U` fields hold one sequence of values per level. The in-place operations of the cycle are methods on it.
- `LoopControl`: the solve and cycle loops. Norms are oracle functions, and divisions by zero follow IEEE rules (±infinity, NaN).
- `AuxParCsr`: the class `AuxParCsrMatrix`, with `array?` fields for the C pointers.

External inputs become parameters:

- the restricted residual of every level;
- the local communicators, given as rank and size;
- what the peers send in the all-gather;
- the residual norm reached after k cycles;
- the status each cycle returns;
- the status the residual communication returns.

## Model

| member | source | states |
|---|---|---|
| CompGrids.CompositeGrids.PackResidualBuffer | src/parcsr_ls/par_amgdd_solve.c:557-570 | the first Offset entries of the send buffer are the message `Packed(F, …)` of levels currentLevel..numLevels-1; later buffer entries keep their values; the composite grids are not modified |
| ResidualBuffer.Packed | src/parcsr_ls/par_amgdd_solve.c:562-567 | the message is as long as the sum of the levels' trip counts (a negative count sends nothing) |
| ResidualBuffer.PackedAt | src/parcsr_ls/par_amgdd_solve.c:565 | entry Offset(L) + i of the message is `F[L][send_flag[L][i]]` |
| CompGrids.CompositeGrids.UnpackResidualBuffer | src/parcsr_ls/par_amgdd_solve.c:572-584 | the new `F` is `Unpacked(old F, …)`: the levels' buffer sections stored through the receive maps, in order; `U` and the other fields do not change |
| ResidualBuffer.Unpacked | src/parcsr_ls/par_amgdd_solve.c:577-581 | unpacking keeps the number of levels and every level's length |
| ResidualBuffer.UnpackedLevel | src/parcsr_ls/par_amgdd_solve.c:577-581 | level L after unpacking is the level's own writes from buffer offset Offset(L) when currentLevel <= L < numLevels, and the old level otherwise |
| ResidualBuffer.LevelUnpackedAt | src/parcsr_ls/par_amgdd_solve.c:579 | a node that no map entry names keeps its value; with an injective map, the node named by entry i receives buffer entry base + i |
| ResidualBuffer.RoundTrip | src/parcsr_ls/par_amgdd_solve.c:557-584 | with equal per-level trip counts and injective receive maps, unpacking a packed message stores `F[L][send_flag[L][i]]` at the receiver's node `recv_map[L][i]` |
| ResidualBuffer.UnpackedUntouched | src/parcsr_ls/par_amgdd_solve.c:577-581 | levels outside currentLevel..numLevels-1, and nodes the level's map does not name, keep their values |
| CompGrids.CompositeGrids.SeedOwnedResiduals | src/parcsr_ls/par_amgdd_solve.c:412-428 | below the transition level (numLevels when negative), node x of the local rank's owned block gets `residual[l][x - start]`; every other node keeps its value |
| Agglomeration.SeedRankIsGroupRank | src/parcsr_ls/par_amgdd_solve.c:415-418 | on every level of a group's run the seeding rank is the process's rank in that group |
| CompGrids.CompositeGrids.ZeroInitialGuess | src/parcsr_ls/par_amgdd_solve.c:285-302 | every entry of `U` on levels 0..numLevels-1 becomes 0; lengths and later levels are kept; `F` is not modified |
| CompGrids.CompositeGrids.AddSolution | src/parcsr_ls/par_amgdd_solve.c:249-262 | `u[i] = old u[i] + U[0][i]` exactly for i below `OwnedBlockStarts[0][NumOwnedBlocks[0]]`; later entries of u are unchanged |
| Agglomeration.NextCommLevel | src/parcsr_ls/par_amgdd_solve.c:709-712 | the run scan stops at the first later level holding a communicator, or at the transition level; no level before it holds one |
| Agglomeration.RunStartInsideRun | src/parcsr_ls/par_amgdd_solve.c:709-712 | every level inside a run belongs to the run started at its first level |
| CompGrids.CompositeGrids.RecvCounts | src/parcsr_ls/par_amgdd_solve.c:707-716 | recvcounts[p] is process p's owned nodes summed over the run that starts at the level and stops before the next level holding a communicator |
| CompGrids.Displacements | src/parcsr_ls/par_amgdd_solve.c:717-718 | displs[0] = 0 and displs[p] is the prefix sum of recvcounts[0..p) |
| CompGrids.CompositeGrids.PackOwnedRun | src/parcsr_ls/par_amgdd_solve.c:719-727 | the send buffer is this process's owned run, level-major, in node order |
| Agglomeration.OwnedRun | src/parcsr_ls/par_amgdd_solve.c:719-727 | a process's owned run is as long as its receive count |
| Agglomeration.Allgatherv | src/parcsr_ls/par_amgdd_solve.c:730-731 | the gathered buffer is as long as the sum of the receive counts |
| Agglomeration.ConcatSection | src/parcsr_ls/par_amgdd_solve.c:730-731 | the section of process p in a concatenation, at the prefix sum of the lengths, is p's contribution |
| Agglomeration.AllgathervSection | src/parcsr_ls/par_amgdd_solve.c:730-731 | when each contribution is as long as its receive count, process p's section of the gathered buffer is p's contribution |
| Agglomeration.ContributionLengths | src/parcsr_ls/par_amgdd_solve.c:714-731 | with peers sending what the counts announce, the contribution lengths are the receive counts |
| CompGrids.CopyBlock | src/parcsr_ls/par_amgdd_solve.c:740-742 | one block of one level receives the next buffer entries; nothing else changes |
| CompGrids.UnpackProcessRun | src/parcsr_ls/par_amgdd_solve.c:736-743 | process proc's owned run becomes the next RunCount buffer entries; the counter advances by that much; only proc's blocks change |
| Agglomeration.OwnedRunExtend | src/parcsr_ls/par_amgdd_solve.c:740-742 | storing a level's block extends the owned run by that block |
| Agglomeration.OwnedRunFrame | src/parcsr_ls/par_amgdd_solve.c:740-742 | a process's owned run depends only on the nodes of its blocks, so later processes' unpacks leave it intact |
| CompGrids.CompositeGrids.UnpackGathered | src/parcsr_ls/par_amgdd_solve.c:733-744 | every process's owned run becomes its section of the gathered buffer; levels outside the run and nodes outside the group's blocks keep their values |
| CompGrids.CompositeGrids.GatherGroup | src/parcsr_ls/par_amgdd_solve.c:697-745 | each process's owned run holds what it sent, and this process's own run keeps its values; nothing outside the group's blocks changes |
| Agglomeration.GatherGroupReady | src/parcsr_ls/par_amgdd_solve.c:693-695 | before a group's all-gather its run still holds the values from before the loop |
| Agglomeration.GatherStep | src/parcsr_ls/par_amgdd_solve.c:693-746 | one group's all-gather advances the level loop: earlier groups stay filled, and untouched levels and uncovered nodes keep their values |
| Agglomeration.GatherSkip | src/parcsr_ls/par_amgdd_solve.c:696 | a level without a communicator changes nothing |
| Agglomeration.EarlierGroupKept | src/parcsr_ls/par_amgdd_solve.c:711 | a group's run ends at or before the next level holding a communicator, so later gathers leave it alone |
| Agglomeration.GatherComplete | src/parcsr_ls/par_amgdd_solve.c:693-746 | after the level loop every group is filled, and every node outside the groups' blocks keeps its value |
| CompGrids.CompositeGrids.AgglomeratedProcessorsLocalResidualAllgather | src/parcsr_ls/par_amgdd_solve.c:685-748 | for every group below the transition level, each process's owned run holds its contribution (this process's own values stay); all other nodes keep their values |
| LoopControl.SolveRelativeResidual | src/parcsr_ls/par_amgdd_solve.c:72-127 | 1 with no tolerance, and 1 before the first cycle when converge_type != 0; with converge_type 0, a finite value that times ‖b‖ (1 when ‖b‖ = 0) gives ‖r_k‖; otherwise finite exactly when ‖r_0‖ != 0, and then times ‖r_0‖ it gives ‖r_k‖ |
| LoopControl.FacRelativeResidual | src/parcsr_ls/par_amgdd_solve.c:209 | 1 before the first FAC cycle; afterwards finite exactly when ‖r_0‖ != 0, and then times ‖r_0‖ it gives ‖r_k‖ |
| LoopControl.ConvergenceFactor | src/parcsr_ls/par_amgdd_solve.c:225-226 | 0 before the first FAC cycle; afterwards finite exactly when the previous norm is nonzero, and then times that norm it gives the current one |
| Agglomeration.LocalRankIsLatest | src/parcsr_ls/par_amgdd_solve.c:412-419 | the rank the seeding loop uses on level l is the rank of the latest level at or below l holding a communicator, and 0 when there is none |
| Agglomeration.RunEndIsNextComm | src/parcsr_ls/par_amgdd_solve.c:708-711 | a run ends at the first later level holding a communicator, or at the transition level; no level strictly inside it holds one |
| CompositeLevels.EffectiveTransitionLevel | src/parcsr_ls/par_amgdd_solve.c:374 | the transition level the cycle uses is never above the number of levels |
| CompositeLevels.LevelsBelowTransition | src/parcsr_ls/par_amgdd_solve.c:692 | a level is below the effective transition level exactly when it is a level and, if a transition level is set, below it |
| LoopControl.AtLeastDivide | src/parcsr_ls/par_amgdd_solve.c:202 | comparing x/y >= t is comparing x >= t·y (reversed for y < 0); a zero divisor gives true only for x > 0, and 0/0 (NaN) gives false |
| LoopControl.AtMostDivide | src/parcsr_ls/par_amgdd_solve.c:218 | comparing x/y <= t is comparing x <= t·y (reversed for y < 0); a zero divisor gives true only for x < 0, and NaN gives false |
| LoopControl.SolveContinuesInNorms | src/parcsr_ls/par_amgdd_solve.c:101-127 | with a tolerance set, the solve loop's condition (less the maximum) holds exactly when fewer than min_iter cycles were done or ‖r_k‖ >= tol times ‖b‖ (1 when ‖b‖ = 0), or times ‖r_0‖ for converge_type != 0 (1 >= tol before the first cycle; ‖r_k‖ > 0 when ‖r_0‖ = 0) |
| LoopControl.ToleranceContinuesInNorms | src/parcsr_ls/par_amgdd_solve.c:202-209 | after k > 0 FAC cycles the relative-residual loop's condition holds exactly when k < min_fac_iter or ‖r_k‖ >= fac_tol·‖r_0‖ (‖r_k‖ > 0 when ‖r_0‖ = 0) |
| LoopControl.ConvFactorContinuesInNorms | src/parcsr_ls/par_amgdd_solve.c:218-226 | after k > 0 FAC cycles with a positive previous norm, the convergence-factor loop's condition holds exactly when k < min_fac_iter, or ‖r_k‖ <= t·‖r_{k-1}‖, or the norm did not fall |
| LoopControl.FacRule | src/parcsr_ls/par_amgdd_solve.c:189-217 | the FAC policy is fixed-count exactly when fac_tol = 0, relative-residual with threshold fac_tol exactly when fac_tol > 0, and convergence-factor with the positive threshold -fac_tol exactly when fac_tol < 0; min_fac_iter is passed on |
| LoopControl.Divide | src/parcsr_ls/par_amgdd_solve.c:117 | a quotient is finite exactly when the divisor is nonzero; it is NaN exactly for 0/0 |
| LoopControl.Iterations | src/parcsr_ls/par_amgdd_solve.c:101 | a loop never does fewer cycles than it has already done |
| LoopControl.IterationsStop | src/parcsr_ls/par_amgdd_solve.c:101 | a loop stops at the first count where its condition fails or the maximum is reached; every earlier count went on |
| LoopControl.IterationsAtLeast | src/parcsr_ls/par_amgdd_solve.c:101 | a condition that holds below m gives at least min(m, max) cycles |
| LoopControl.IterationsBounds | src/parcsr_ls/par_amgdd_solve.c:202 | with a minimum count, at least min(min, max) cycles run, and never more than max(0, max) |
| LoopControl.AlwaysContinuing | src/parcsr_ls/par_amgdd_solve.c:191 | an always-true condition gives exactly max(0, max) cycles |
| LoopControl.AnyCycleFailed | src/parcsr_ls/par_amgdd_solve.c:105 | true exactly when some cycle before n returned nonzero |
| LoopControl.BoomerAMGDDSolve | src/parcsr_ls/par_amgdd_solve.c:42-140 | runs `Iterations(Solve…)` cycles and returns 1 iff some cycle returned nonzero; the iteration count is written only when a cycle ran; the relative residual norm is written only then and only when tol > 0 |
| LoopControl.SolveWithoutTolerance | src/parcsr_ls/par_amgdd_solve.c:95-101 | with tol <= 0 the solve runs exactly max(0, max_iter) cycles |
| LoopControl.SolveStopsConverged | src/parcsr_ls/par_amgdd_solve.c:101-130 | a solve that stops before max_iter has done min_iter cycles, and its relative residual is not at least tol |
| LoopControl.BoomerAMGDDCycle | src/parcsr_ls/par_amgdd_solve.c:143-247 | returns the residual communication status; runs the FAC count of the policy chosen by the sign of fac_tol; the FAC iteration count is written only when a cycle ran |
| LoopControl.FixedFacCycles | src/parcsr_ls/par_amgdd_solve.c:189-198 | with fac_tol = 0 exactly max(0, max_fac_iter) FAC cycles run |
| LoopControl.ToleranceStopsConverged | src/parcsr_ls/par_amgdd_solve.c:200-213 | a relative-residual FAC loop that stops early has done min_fac_iter cycles, and ‖r‖/‖r0‖ is not at least fac_tol |
| LoopControl.ConvFactorStops | src/parcsr_ls/par_amgdd_solve.c:215-229 | a convergence-factor FAC loop that stops early has done min_fac_iter cycles, with a factor neither at most |fac_tol| nor at least 1; with max_fac_iter > 0 at least one cycle runs |
| AuxParCsr.AuxParCsrMatrix.Create | src/IJ_mv/aux_parcsr_matrix.c:21-69 | stores the row and column counts and `sizes` as row space; need_aux = 1; the off-process counters are 0; every array pointer is null; memory is the host |
| AuxParCsr.AuxParCsrMatrix.Initialize | src/IJ_mv/aux_parcsr_matrix.c:131-207 | records the memory location on every path; returns -1 for negative rows, else 0; describes each branch: empty, device (need_aux = 1 only), host stash, per-row buffers or insertion indices |
| AuxParCsr.AuxParCsrMatrix.AllocateStash | src/IJ_mv/aux_parcsr_matrix.c:158-163 | fresh zeroed stash: 2·max entries for I, max entries each for J and Data |
| AuxParCsr.AuxParCsrMatrix.AllocateRowStorage | src/IJ_mv/aux_parcsr_matrix.c:165-198 | per-row buffers of one row per local row with the given capacities, or 30 each with the new all-30 row space stored; row lengths zeroed only if absent |
| AuxParCsr.AllocateRowBuffers | src/IJ_mv/aux_parcsr_matrix.c:177-192 | fresh, pairwise distinct, zero-filled rows, row i of capacity space[i], for both column indices and values |
| AuxParCsr.AuxParCsrMatrix.AllocateInsertionIndices | src/IJ_mv/aux_parcsr_matrix.c:199-203 | fresh zero-filled diagonal and off-diagonal insertion indices, one per local row |

Notes on the loop conditions as coded:

- **Convergence-factor policy.** The loop at `par_amgdd_solve.c:218` goes on while the factor is at most |fac_tol|, or at least 1, or fewer than min_fac_iter cycles were done. It stops early only when the factor lies strictly between |fac_tol| and 1, or is NaN. `ConvFactorStops` states this.
- **`converge_type != 0`.** The outer solve loop recomputes ‖r‖/‖r0‖ after every cycle (`par_amgdd_solve.c:126`), as `SolveRelativeResidual` does.

## Left out

- MPI transport is not modelled: `Irecv`/`Isend`/`Waitall`, `Comm_rank`/`Comm_size`, barriers, and the point-to-point loop over neighbours. The all-gather is modelled as the concatenation of the per-process send buffers, and the peers' buffers are parameters.
- The all-gather of the transition level (`par_amgdd_solve.c:436-450`) is not modelled. Its sizes come from setup, outside this model.
- The restriction of the residual to the coarse levels (matvecs), `hypre_ParVectorCopy` and the inner products are not modelled. They are foreign linear algebra; the restricted residual is a parameter.
- `hypre_BoomerAMGDD_FAC_Cycle` is not modelled, and neither is `GetCompositeResidual` with its square root. The residual norm after k cycles is an oracle `residNorm(k)`. Quotients are exact reals, without rounding.
- `TestResComm` and the compile-time debugging/test blocks are not modelled. `BoomerAMGDDCycle` takes the status of the residual communication as a parameter (0 unless those blocks are compiled in). `BoomerAMGDDSolve` takes each cycle's status as an oracle.
- `hypre_AuxParCSRMatrixDestroy` is not modelled: it only frees memory.
- The CUDA-only fields of the auxiliary matrix are not modelled.
- The SIDL class-info glue is not modelled. It only forwards through function tables.
- CompGrids.CompositeGrids: the per-level C arrays are `seq` fields, replaced as a whole by each operation. Aliasing between levels' arrays is not modelled. The send/receive scratch buffers of the all-gather (`recvcounts`, `displs`, `sendbuf`, `recvbuf`) are local sequences rather than heap arrays.
- AuxParCsr.AuxParCsrMatrix.Initialize: a zero-size `hypre_CTAlloc` is modelled as an empty array, not as a null pointer.
- AuxParCsr.AuxParCsrMatrix.Initialize: the previous arrays overwritten by a second call are not freed. The model does not track memory leaks.
- AuxParCsr.AuxParCsrMatrix.Initialize requires non-negative row capacities for the per-row buffers. C would pass a negative capacity to the allocator unchecked.
- AuxParCsr.AuxParCsrMatrix.AllocateRowStorage requires non-negative row capacities. C would pass a negative `row_space[i]` to `hypre_CTAlloc` unchecked (`aux_parcsr_matrix.c:177-192`), and a Dafny array cannot have a negative length.
- AuxParCsr.AllocateRowBuffers requires non-negative row capacities, for the same reason as `AllocateRowStorage`.
- CompositeLevels.EffectiveTransitionLevel: its own contract only bounds the result. Which levels lie below it (negative means `numLevels`, `par_amgdd_solve.c:374`) is stated by `LevelsBelowTransition`.
- LoopControl.BoomerAMGDDCycle models only the cycle's loop control and return status. Its calls to `ZeroInitialGuess` (`par_amgdd_solve.c:168`) and `AddSolution` (`par_amgdd_solve.c:238`) are modelled as separate methods. The allocation and release of the temporary vectors (`par_amgdd_solve.c:185`, `:234`) are not modelled.
- `HYPRE_Int` values become unbounded `int`, so overflow is not modelled. This covers `2 * max_off_proc_elmts` (`aux_parcsr_matrix.c:160`) and the `cnt` and `recvcounts` accumulators of the all-gather.
- The all-gather never frees its scratch buffers (`par_amgdd_solve.c:707`, `:716`, `:718`, `:729`). That leak is not modelled, because the model has no heap for them.
- CompGrids.CompositeGrids: `HYPRE_Complex`/`HYPRE_Real` values (`F`, `U` and the fine-grid `u`) are exact reals. `AddSolution`'s `u[i] += U[0][i]` (`par_amgdd_solve.c:259`) is an exact sum, without double rounding. Builds where `HYPRE_Complex` is a complex type are not modelled. Packing, unpacking, seeding and the all-gather only copy values, so this affects none of them.
