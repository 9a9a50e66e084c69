# Omnitrace workloads and tools: a verified model

Omnitrace is a profiler; its repository carries parallel workloads that exercise it and the product code that drives
them. This project models the hard algorithms among them and proves what they are for.

- **LU benchmark** (`LuBlocks`, `LuSweep`, `LuSerial`, `LuWavefront`). The SSOR step solves a block triangular system
  with a pipelined wavefront of threads that are synchronised only by spin flags. The 5x5 block elimination is proved to
  invert the block; one sweep solves the block triangular system and nothing else does; and the threads' protocol, a
  state machine over its accesses to shared memory, leaves the serial sweep's grid under every interleaving, never
  deadlocks, never races and always ends.
- **Random numbers** (`RandomCycle`, `Randlc`). The split-half multiplication is exact modulo 2^46, the period is
  exactly 2^44, and every second draw still reaches every position.
- **CG benchmark** (`RealVectors`, `CgVectors`, `CgRows`, `CgSparse`, `CgMatrix`, `ConjGrad`, `CgSolver`). The in-place
  assembly of the sparse matrix loses nothing, never runs into its internal error and means the sum of outer products
  of the vectors drawn from the seed; the conjugate gradient iteration keeps the true residual, orthogonal residuals and
  conjugate directions, and a symmetric matrix is definite exactly when no start makes it break down.
- **LULESH** (`LuleshMesh`, `LuleshCorners`, `LuleshForces`, `LuleshEquilibrium`, `LuleshGrid`, `LuleshMessages`,
  `LuleshHalo`, `LuleshGhosts`). The node-to-corner index is exact, so gathering and atomic scattering agree; stress
  adds no net force, and equal stress puts none on any interior node; the messages of all ranks pair up, fit and stay
  apart; after the halo sum every copy of a shared node holds the sum over its sharers; and the neighbour look-ups see
  one global mesh.
- **Distributed binning** (`Binning`). Sorting, counting, prefix sums and the all-to-all exchange put every number into
  its bin and keep the multiset.
- **Python profiler** (`PythonProfiler`). The callback's ignore depth and record stack emit the recursive meaning of
  every properly nested call tree, also when profiling starts inside open calls; what becomes of each call is read off
  the filter sets.
- **Causal profiler** (`CausalEnvironments`). The experiment matrix lists every combination once per iteration, in
  mixed-radix order.

Conventions: floating-point numbers are exact reals, or whole numbers where the code keeps whole numbers in doubles;
memory is sequentially consistent; arrays the code updates in place are arrays here, and loops are loops. A method is
proved against a specification function, and the lemmas below prove what that function means.

What does not hold of the code, with the exact condition under which it does:

- `PythonProfiler.ExclusionHolds`: an excluded function hides what it calls if and only if the ignore depth is not
  negative; `PythonProfiler.UnmatchedReturn` gives an event after which it is.
- `CgSparse.Sparse`: the space guard rejects a matrix if and only if it needs more than nz + 1 slots, one more than there
  are; `CgSparse.GuardAdmitsOneSlotTooMany` gives such a matrix. This is a flaw of `sparse` in isolation: its one caller,
  `makea`, provides for every slot (`CgMatrix.SpaceSuffices`) and never comes to this case.
- `CgVectors.NoMoreThanPositions`: `sprnvc` returns for nz <= n; for more it would have to accept more entries than there
  are positions.
- `Binning.OneHasNoOwner`: a number in [0, 1] has an owner if and only if it is below one. The generator guards against
  one, but lowers a draw that it then throws away: its numbers stay below one if and only if no second draw is RAND_MAX
  (`Binning.GeneratorStaysBelowOne`).

## Model

| member | source | states |
|---|---|---|
| `LuBlocks.PivotRow` | examples/openmp/LU/lu.cpp:545-560 | a pivot equation holds exactly when the first unknown is the one back substitution computes from the later ones |
| `LuBlocks.ReduceKeepsSolutions` | examples/openmp/LU/lu.cpp:482-544 | one elimination step keeps the solutions: given the pivot equation, the system holds exactly when the reduced system does |
| `LuBlocks.SolutionIsTheSolution` | examples/openmp/LU/lu.cpp:466-560 | with nonzero pivots a vector solves the system if and only if it is the one elimination and back substitution return |
| `LuBlocks.SolveInverts` | examples/openmp/LU/lu.cpp:466-560 | `D x = b` holds if and only if x is the computed solution |
| `LuBlocks.MulByEntries` | examples/openmp/LU/lu.cpp:421-426 | a block-vector product written out: the blocks are stored column by column |
| `LuBlocks.EliminateRow` | examples/openmp/LU/lu.cpp:482-544 | updating a row in the work arrays is one elimination step on that row and touches nothing else |
| `LuBlocks.EliminateColumn` | examples/openmp/LU/lu.cpp:482-544 | all row updates of a pivot leave exactly the reduced system in the remaining rows; the finished rows stay |
| `LuBlocks.ForwardEliminate` | examples/openmp/LU/lu.cpp:473-544 | forward elimination leaves pivot row p of every stage p in row p of the work arrays |
| `LuBlocks.SubtractKnown` | examples/openmp/LU/lu.cpp:551-559 | the known unknowns are taken out of one right-hand side, the others stay |
| `LuBlocks.BackSubstituteRows` | examples/openmp/LU/lu.cpp:550-560 | back substitution on the pivot rows returns the solution of the whole system |
| `LuBlocks.SolveInPlace` | examples/openmp/LU/lu.cpp:466-560 | the solve in `tmat` and `tv` returns the one vector the diagonal block maps to the right-hand side |
| `LuSweep.Sweep.CellSolvesEquation` | examples/openmp/LU/lu.cpp:415-561 | a cell gets the value of the loops exactly when its block equation holds: `D v + omega (Lz v(k-1) + Ly v(j-1) + Lx v(i-1)) = old v`, for the upper sweep `D v + omega (U...) = D old v` |
| `LuSweep.Sweep.CellByComponents` | examples/openmp/LU/lu.cpp:420-464 | the block equation unknown by unknown: omega times z on the plane before, y on the row before, x on the column before |
| `LuSweep.Sweep.FinalSolvesSystem` | examples/openmp/LU/lu.cpp:595-744 | the values of a whole sweep satisfy the block equation of every cell |
| `LuSweep.Sweep.SystemHasOneSolution` | examples/openmp/LU/lu.cpp:415-561 | no other grid satisfies the block triangular system |
| `LuSerial.BltsCouple` | examples/openmp/LU/lu.cpp:414-429 | the first loop of `blts` couples every interior cell of the plane to the plane before it, and changes nothing else |
| `LuSerial.BltsCell` | examples/openmp/LU/lu.cpp:451-561 | one cell of the second loop: in every unknown the diagonal block times the new value and omega times (y times the row before + x times the column before) give the value found; no other cell changes |
| `LuSerial.BltsRelax` | examples/openmp/LU/lu.cpp:431-565 | after the second loop each interior cell of the plane has its final value |
| `LuSerial.LowerSweep` | examples/openmp/LU/lu.cpp:2990-3028 | the serial k, j, i sweep of `blts` leaves the solution of the block lower triangular system |
| `LuSerial.ButsCouple` | examples/openmp/LU/lu.cpp:594-608 | the first loop of `buts` leaves the coupling to the next plane in `tv` |
| `LuSerial.ButsCell` | examples/openmp/LU/lu.cpp:630-745 | one cell of the second loop of `buts`: the diagonal block maps what the value loses to the coupling in `tv` and omega times (y times the next row + x times the next column); no other cell changes |
| `LuSerial.ButsRelaxRow` | examples/openmp/LU/lu.cpp:630-745 | one row of the second loop of `buts`: final values, and no other row |
| `LuSerial.ButsRelax` | examples/openmp/LU/lu.cpp:610-749 | after the second loop of `buts` each interior cell of the plane has its final value |
| `LuSerial.UpperSweep` | examples/openmp/LU/lu.cpp:3032-3069 | the serial reversed sweep of `buts` leaves the solution of the block upper triangular system |
| `LuSerial.Ssor` | examples/openmp/LU/lu.cpp:2990-3071 | one SSOR step: the lower system is solved from the old grid, the whole upper system, boundary values included, from its result; the array holds that solution inside and keeps its boundary |
| `LuWavefront.InitEstablishesInv` | examples/openmp/LU/lu.cpp:414-449 | the state before the first plane satisfies the invariant of the protocol |
| `LuWavefront.StepFlagCounts` | examples/openmp/LU/lu.cpp:563-564 | every step keeps flag r equal to the planes row r has announced less the planes row r+1 has taken, always 0 or 1; both orders of the two flag writes are covered (also 747-748) |
| `LuWavefront.StepFlagsHeld` | examples/openmp/LU/lu.cpp:434-449 | what a spin wait has seen stays true until the row itself gives it up, whatever other threads do |
| `LuWavefront.RelaxReadsFinal` | examples/openmp/LU/lu.cpp:451-465 | in every state of the invariant a cell about to be relaxed finds final values at its row and column predecessors and the coupled value at itself |
| `LuWavefront.RelaxIsFinal` | examples/openmp/LU/lu.cpp:451-561 | so the value it gets is the serial sweep's |
| `LuWavefront.StepKeepsInv` | examples/openmp/LU/lu.cpp:414-566 | every step of every thread keeps the invariant: flags, held waits, grid values, scratch |
| `LuWavefront.ReachableStatesSatisfyInv` | examples/openmp/LU/lu.cpp:594-750 | every state of every interleaving satisfies it, for both sweeps |
| `LuWavefront.PipelineIsSerialSweep` | examples/openmp/LU/lu.cpp:2990-3071 | safety: under every interleaving and every contiguous assignment of rows to threads a finished sweep has left the serial sweep's grid, and all flags between rows are down again |
| `LuWavefront.BlockedByAnEarlierRow` | examples/openmp/LU/lu.cpp:434-449 | a thread held by a spin wait waits for a thread that is earlier in the order of planes and rows |
| `LuWavefront.NoDeadlock` | examples/openmp/LU/lu.cpp:611-628 | progress: in every reachable unfinished state some thread can step |
| `LuWavefront.NoDataRace` | examples/openmp/LU/lu.cpp:414-566 | no reachable state has one thread about to write a cell that another is about to read or write |
| `LuWavefront.RunLength` | examples/openmp/LU/lu.cpp:2990-3071 | termination: no interleaving is longer than planes * rows * (3 * cols + 4) steps, and it has that length exactly when the sweep is finished |
| `RandomCycle.CycleLength` | examples/openmp/common/c_randdp.cpp:63-71 | for an odd multiplier 1 + 2^k u with u odd, b^d x returns to x modulo 2^n exactly at the multiples of 2^(n-k) |
| `RandomCycle.PowerOfTwoLifts` | examples/openmp/common/c_randdp.cpp:63-71 | raising to the power 2^j raises the power of two in b - 1 by exactly j |
| `RandomCycle.OrbitReaches` | examples/openmp/common/c_randdp.cpp:63-71 | the orbit meets every number congruent to the seed modulo 2^k |
| `Randlc.HighHalf` | examples/openmp/common/c_randdp.cpp:94-95 | scaling and truncating takes the exact quotient by the power of two; the conversion fits an int |
| `Randlc.Draw` | examples/openmp/common/c_randdp.cpp:105-113 | the split-half arithmetic computes a x mod 2^46 exactly; every intermediate is a whole number a double holds and every conversion is in range |
| `Randlc.Generator.Randlc` | examples/openmp/common/c_randdp.cpp:85-116 | the seed becomes a x mod 2^46, the result is the scaled seed |
| `Randlc.Generator.Vranlc` | examples/openmp/common/c_randdp.cpp:143-184 | n draws at once: entry i is draw i+1, the seed is the n-th, the rest of the array stays |
| `Randlc.IterateIsPower` | examples/openmp/common/c_randdp.cpp:66-68 | the n-th seed is a^n x mod 2^46 |
| `Randlc.SeedsStayOdd` | examples/openmp/common/c_randdp.cpp:70-72 | from an odd seed every seed is odd and every result lies strictly between 0 and 1 |
| `Randlc.PeriodIsExact` | examples/openmp/common/c_randdp.cpp:68-69 | for a multiplier that is 5 modulo 8 and an odd seed the sequence returns after n draws if and only if 2^44 divides n |
| `Randlc.PairsReach` | examples/openmp/CG/cg.cpp:988-998 | taking every second draw, every seed congruent to the first modulo 8 comes up within 2^43 pairs |
| `CgVectors.MultiplierIsPower` | examples/openmp/CG/cg.cpp:239 | the multiplier is 5^13 |
| `CgVectors.Icnvrt` | examples/openmp/CG/cg.cpp:682-686 | a draw in (0, 1) is scaled to a whole number below the power of two |
| `CgVectors.PositionIsQuotient` | examples/openmp/CG/cg.cpp:990-998 | the position a seed x stands for is the quotient of nn1 x by 2^46, plus one |
| `CgVectors.AcceptedPositions` | examples/openmp/CG/cg.cpp:988-1024 | a position up to n is among the accepted ones exactly when one of the pairs of draws gives it |
| `CgVectors.AcceptedValues` | examples/openmp/CG/cg.cpp:988-1024 | and its value is the draw before the first of those |
| `CgVectors.PositionComesUp` | examples/openmp/CG/cg.cpp:990-998 | from any odd seed every position between 1 and n comes up among the second draws |
| `CgVectors.DrawPair` | examples/openmp/CG/cg.cpp:990-998 | a value and a position are two successive draws |
| `CgVectors.WasGenerated` | examples/openmp/CG/cg.cpp:1009-1017 | the search finds a position exactly when it is among those generated |
| `CgVectors.AcceptPair` | examples/openmp/CG/cg.cpp:990-1024 | one turn keeps the arrays equal to the accepted entries of the draws so far |
| `CgVectors.Sprnvc` | examples/openmp/CG/cg.cpp:981-1026 | terminates, and leaves the first nz accepted entries of the random sequence: distinct positions in 1..n |
| `CgVectors.CollectedPositions` | examples/openmp/CG/cg.cpp:986-1025 | the positions collected lie in 1..n and differ from one another |
| `CgVectors.NoMoreThanPositions` | examples/openmp/CG/cg.cpp:988-1025 | never more than n entries are accepted, so the loop cannot end when more are asked for |
| `CgVectors.Vecset` | examples/openmp/CG/cg.cpp:1035-1056 | the value at position i is set; i is appended exactly when it was missing, other entries stay |
| `CgVectors.DrawnInUnit` | examples/openmp/CG/cg.cpp:988-1024 | the values of a vector drawn from an odd seed lie strictly between 0 and 1, the diagonal one half included |
| `CgVectors.MakeVector` | examples/openmp/CG/cg.cpp:745-756 | one sparse vector: the first NONZER accepted entries of the draws after the seed it finds, one half on the diagonal, and the seed left behind those draws; its columns are distinct, below n, and the diagonal is among them |
| `CgVectors.FindNn1` | examples/openmp/CG/cg.cpp:734-738 | the doubling loop ends with the first power of two, from two on, that is not below n |
| `CgVectors.PowerFound` | examples/openmp/CG/cg.cpp:729-738 | what doubling reaches is a power of two that fits an int |
| `CgVectors.MakeVectors` | examples/openmp/CG/cg.cpp:734-756 | n such vectors, each drawn from the seed that the one before it leaves, and the seed after all of them |
| `CgRows.InsertKeepsSorted` | examples/openmp/CG/cg.cpp:881-926 | ordered insertion keeps the columns strictly increasing, and the row grows exactly when the column is new |
| `CgRows.InsertColumns` | examples/openmp/CG/cg.cpp:881-926 | the columns afterwards are the old ones and the inserted one |
| `CgRows.InsertAdds` | examples/openmp/CG/cg.cpp:927 | insertion adds the value at its column and nothing elsewhere |
| `CgRows.ShiftRight` | examples/openmp/CG/cg.cpp:891-898 | the shift moves the occupied slots from k on by one, slot by slot from behind; only a cell behind the row's last slot would be lost |
| `CgRows.FindSlot` | examples/openmp/CG/cg.cpp:882-921 | the search stops at the first slot whose column is not smaller |
| `CgRows.AddToRow` | examples/openmp/CG/cg.cpp:881-927 | one insertion in place: the row's slots then hold the inserted row, cut to the capacity; it fails exactly when the row is full and the column belongs behind its last cell |
| `CgSparse.CountContributions` | examples/openmp/CG/cg.cpp:804-815 | the count of each row is the number of pairs of entries that contribute to it |
| `CgSparse.PowerAdds` | examples/openmp/CG/cg.cpp:856-930 | the weights are the powers of `ratio`: ratio^1 is ratio, ratio^(i + j) is ratio^i ratio^j |
| `CgSparse.CountSlots` | examples/openmp/CG/cg.cpp:804-820 | the counts become the first slots of the rows |
| `CgSparse.ClearSlots` | examples/openmp/CG/cg.cpp:841-849 | every reserved slot is empty, every duplicate count zero |
| `CgSparse.RoomForEntry` | examples/openmp/CG/cg.cpp:804-815 | the insertions made into a row and those of the entry at hand never exceed the capacity reserved for it |
| `CgSparse.AddContribution` | examples/openmp/CG/cg.cpp:881-927 | an insertion with a slot in reserve cannot fail, loses no entry, and keeps occupied slots plus duplicates equal to the insertions made |
| `CgSparse.AddEntry` | examples/openmp/CG/cg.cpp:862-928 | all contributions of one entry, without failure |
| `CgSparse.AddAll` | examples/openmp/CG/cg.cpp:858-931 | the triple loop never reaches the internal error, and the slots hold the rows of all contributions |
| `CgSparse.MoveRow` | examples/openmp/CG/cg.cpp:943-961 | a row moves left intact although the two ranges of slots may overlap |
| `CgSparse.MoveDistance` | examples/openmp/CG/cg.cpp:938-953 | the distance a row moves is the number of unused slots before it |
| `CgSparse.SqueezeRows` | examples/openmp/CG/cg.cpp:943-961 | after all moves the rows lie one behind the other, none damaged |
| `CgSparse.Squeeze` | examples/openmp/CG/cg.cpp:938-965 | the compaction keeps every entry and leaves the row starts of the compressed form |
| `CgSparse.Sparse` | examples/openmp/CG/cg.cpp:775-967 | never the internal error; space is exceeded exactly when more than nz + 1 slots are needed; otherwise the compressed rows of all contributions |
| `CgSparse.GuardAdmitsOneSlotTooMany` | examples/openmp/CG/cg.cpp:821-834 | the guard of `sparse` taken by itself: a matrix that needs one slot passes it with no space; `makea` provides for every slot and never comes to this |
| `CgMatrix.RowValue` | examples/openmp/CG/cg.cpp:858-931 | an assembled row means the sum of the contributions at every column |
| `CgMatrix.VectorHoldsEntries` | examples/openmp/CG/cg.cpp:858-879 | the dense vector has each stored entry at its column and zero elsewhere |
| `CgMatrix.SlotSumIsValue` | examples/openmp/CG/cg.cpp:955-960 | summing the stored slots of a column gives the row's value there |
| `CgMatrix.CompressedIsMatrix` | examples/openmp/CG/cg.cpp:775-967 | the result is a CSR matrix: increasing starts, strictly increasing columns in range, and the dense meaning of the contributions |
| `CgMatrix.MatrixIsSymmetric` | examples/openmp/CG/cg.cpp:858-931 | the assembled matrix is symmetric |
| `CgMatrix.SpaceSuffices` | examples/openmp/CG/cg.cpp:821-834 | the slots needed are the sum of the squared vector lengths, at most n (NONZER + 1)^2 |
| `CgMatrix.DenseIsOuterSum` | examples/openmp/CG/cg.cpp:876-879 | with distinct columns and the diagonal in every vector the matrix is the sum of ratio^i v_i v_i^T with rcond - shift once on the diagonal |
| `CgMatrix.MakeA` | examples/openmp/CG/cg.cpp:716-766 | `makea` always completes, with the matrix of the vectors that the draws from its seed give, and leaves the seed behind those draws |
| `ConjGrad.StepKeepsResidual` | examples/openmp/CG/cg.cpp:547-642 | an iteration keeps r = x - A z |
| `ConjGrad.ResidualStaysTrue` | examples/openmp/CG/cg.cpp:545-642 | so does every number of iterations |
| `ConjGrad.RunIsOrthogonal` | examples/openmp/CG/cg.cpp:545-642 | for a symmetric matrix all residuals of a run are orthogonal to one another and all directions A-conjugate, not only successive ones |
| `ConjGrad.BreakdownMeansSolved` | examples/openmp/CG/cg.cpp:601-630 | for a symmetric definite matrix, of either sign, a division can fail if and only if the residual is already zero |
| `ConjGrad.DefinitenessIsExact` | examples/openmp/CG/cg.cpp:601-630 | a symmetric matrix is definite if and only if the iteration never divides by zero before it is solved, whatever vector it starts from |
| `CgSolver.SlotProductIsDot` | examples/openmp/CG/cg.cpp:576-581 | the product over the stored slots of a row is the dense row product |
| `CgSolver.MatVec` | examples/openmp/CG/cg.cpp:574-582 | the sparse product is the dense matrix-vector product |
| `CgSolver.DotLoop` | examples/openmp/CG/cg.cpp:590-594 | the reduction is the dot product |
| `CgSolver.UpdateSolution` | examples/openmp/CG/cg.cpp:610-623 | z and r are updated in place and the squared norm of the new r is returned |
| `CgSolver.UpdateDirection` | examples/openmp/CG/cg.cpp:637-641 | the new direction in place |
| `CgSolver.Initialize` | examples/openmp/CG/cg.cpp:522-542 | the starting vectors and rho |
| `CgSolver.Iterate` | examples/openmp/CG/cg.cpp:545-642 | one pass over the arrays is one step of the recurrence on the dense matrix |
| `CgSolver.ExplicitResidual` | examples/openmp/CG/cg.cpp:644-672 | the closing loops compute the squared norm of x - A z |
| `CgSolver.ConjGrad25` | examples/openmp/CG/cg.cpp:508-675 | after 25 iterations z is the recurrence's iterate, and the explicitly computed sum equals the recurrence's own rho |
| `CgSolver.RowsOrColumns` | examples/openmp/CG/cg.cpp:574-594 | a bilinear form may be summed by rows or by columns, which makes a symmetric matrix a self-adjoint operator |
| `CgSolver.BenchmarkMatrixIsSymmetric` | examples/openmp/CG/cg.cpp:775-967 | the matrix `makea` returns is symmetric, so the orthogonality results apply to it |
| `LuleshMesh.CornerOffsets` | examples/lulesh/lulesh-init.cc:355-362 | the offsets added to the node counter lead to the eight corners of the cube |
| `LuleshMesh.BuildNodelist` | examples/lulesh/lulesh-init.cc:346-369 | every element lists the eight nodes of its cube, and no node number is out of range |
| `LuleshCorners.CornersOfIsExact` | examples/lulesh/lulesh-init.cc:405-419 | the corner list of a node has each corner at that node exactly once, in increasing order, and nothing else |
| `LuleshCorners.CountCorners` | examples/lulesh/lulesh-init.cc:378-388 | the counts are the lengths of the corner lists |
| `LuleshCorners.StartOffsets` | examples/lulesh/lulesh-init.cc:390-398 | the starts are the corners at lower nodes |
| `LuleshCorners.EveryCornerHasANode` | examples/lulesh/lulesh-init.cc:400-401 | the lists of all nodes together have as many entries as there are corners |
| `LuleshCorners.PlaceOfCorner` | examples/lulesh/lulesh-init.cc:411-416 | the place for a corner lies in its own node's slice, behind the corners already there |
| `LuleshCorners.SetupThreadSupportStructures` | examples/lulesh/lulesh-init.cc:375-437 | slice m of the index is exactly the corner list of node m, and the range check never fails |
| `LuleshCorners.SumInAnyOrder` | examples/lulesh/lulesh.cc:383-391 | a sum over corners does not depend on their order |
| `LuleshCorners.ScatterReachesTheSameCorners` | examples/lulesh/lulesh.cc:617-619 | whatever the order of the atomic additions, a node receives the corners its slice lists |
| `LuleshCorners.Gather` | examples/lulesh/lulesh.cc:369-398 | every node adds the sum of its own corners |
| `LuleshCorners.GatheredIsNodeSum` | examples/lulesh/lulesh.cc:383-397 | what a node gathers is the plain sum over all corners of the mesh that lie at it |
| `LuleshCorners.AtomicScatter` | examples/lulesh/lulesh.cc:617-626 | atomic additions in any order leave the same array as the gather |
| `LuleshCorners.NodesGatherEverything` | examples/lulesh/lulesh.cc:377-398 | all nodes together gather the total over all corners |
| `LuleshCorners.TotalIsKept` | examples/lulesh/lulesh.cc:392-397 | either way of adding changes the total over the nodes by the total over the corners |
| `LuleshForces.AreaByEdges` | examples/lulesh/lulesh.cc:263-273 | the area vector of a face is a sum over its directed edges |
| `LuleshForces.FacesClose` | examples/lulesh/lulesh.cc:300-322 | the six face areas of a hexahedron with any corners sum to zero |
| `LuleshForces.NormalsCancel` | examples/lulesh/lulesh.cc:289-323 | so do its eight node normals |
| `LuleshForces.NormalOfCorner` | examples/lulesh/lulesh.cc:290-323 | the normal at each of the eight nodes is the sum of the areas of the three faces that meet there |
| `LuleshForces.SumElemFaceNormal` | examples/lulesh/lulesh.cc:256-287 | a face adds its area to its four nodes in each component and to no other |
| `LuleshForces.CalcElemNodeNormals` | examples/lulesh/lulesh.cc:290-323 | the three normal arrays hold the sums of the six faces |
| `LuleshForces.StoreForces` | examples/lulesh/lulesh.cc:326-335 | the force at node i of the element is minus stress times normal i, and earlier elements keep theirs |
| `LuleshForces.NoNetForce` | examples/lulesh/lulesh.cc:348-363 | the corner forces of any elements with any stresses sum to zero |
| `LuleshForces.ForceInElement` | examples/lulesh/lulesh.cc:348-363 | the force at corner j of element k is minus the stress of k times the area of its three faces there |
| `LuleshForces.ForcesOfElements` | examples/lulesh/lulesh.cc:348-363 | the first kernel stores those corner forces for every element |
| `LuleshForces.GatheredForce` | examples/lulesh/lulesh.cc:377-398 | a node gathers, over the corners that lie at it, minus stress times face areas |
| `LuleshForces.IntegrateStressForElems` | examples/lulesh/lulesh.cc:339-399 | every node gains exactly that in each component, and the total force over all nodes is unchanged |
| `LuleshEquilibrium.WalkedBack` | examples/lulesh/lulesh.cc:263-273 | a face walked the other way, from either end, has the opposite area |
| `LuleshEquilibrium.FacesOfCube` | examples/lulesh/lulesh.cc:300-322 | three faces of an element are those of the next elements, walked back |
| `LuleshEquilibrium.FacesAroundNode` | examples/lulesh/lulesh.cc:300-322 | the 24 faces of the eight elements around a node cancel in pairs, wherever the nodes lie |
| `LuleshEquilibrium.CornersOfInterior` | examples/lulesh/lulesh-init.cc:351-366 | the corner list of an interior node of the mesh: the eight elements around it, in order |
| `LuleshEquilibrium.EqualStressIsBalanced` | examples/lulesh/lulesh.cc:339-399 | a node inside a region of equal stress gets no force at all, for any positions of the nodes of a mesh of any size |
| `LuleshGrid.DecompositionInvertsRank` | examples/lulesh/lulesh-init.cc:863-930 | when the number of ranks is a cube, a rank's position lies in the grid and has that rank |
| `LuleshGrid.RankInRange` | examples/lulesh/lulesh-init.cc:925-928 | every position of the grid has a rank below the number of ranks |
| `LuleshGrid.RankIsInjective` | examples/lulesh/lulesh-init.cc:925-928 | different positions have different ranks |
| `LuleshGrid.PeerIsNeighbour` | examples/lulesh/lulesh-comm.cc:117-359 | the rank arithmetic of every message names the neighbouring position |
| `LuleshGrid.BlocksCoverNeighbours` | examples/lulesh/lulesh-comm.cc:115-359 | the 26 blocks serve every neighbour once, faces before edges before corners; `doRecv` guards exactly the lower ranks and `doSend` the higher ones |
| `LuleshGrid.PlaneFacesMatchPlaces` | examples/lulesh/lulesh-comm.cc:417-460 | the index expressions of the packing loops address the node whose place in the message is the loop counter: the two faces between planes |
| `LuleshGrid.RowFacesMatchPlaces` | examples/lulesh/lulesh-comm.cc:461-509 | the same for the two faces between rows |
| `LuleshGrid.ColumnFacesMatchPlaces` | examples/lulesh/lulesh-comm.cc:510-559 | the same for the two faces between columns |
| `LuleshGrid.PlaneEdgesMatchPlaces` | examples/lulesh/lulesh-comm.cc:562-751 | the same for the four edges of a row and a column side, where the counter runs along the planes |
| `LuleshGrid.ColumnEdgesMatchPlaces` | examples/lulesh/lulesh-comm.cc:581-770 | the same for the four edges of a row and a plane side, where it runs along the columns |
| `LuleshGrid.RowEdgesMatchPlaces` | examples/lulesh/lulesh-comm.cc:600-789 | the same for the four edges of a column and a plane side, where it runs along the rows |
| `LuleshGrid.CornersMatchPlaces` | examples/lulesh/lulesh-comm.cc:790-916 | the eight corner expressions address the corner nodes, at the one place of their messages |
| `LuleshGrid.CountOfSide` | examples/lulesh/lulesh-comm.cc:117-359 | a message is as long as the product of the extents along the axes in which the neighbour is level |
| `LuleshGrid.PosIsInjective` | examples/lulesh/lulesh-comm.cc:418-916 | no two nodes of a side share a place in the message |
| `LuleshGrid.MirrorHasSamePlace` | examples/lulesh/lulesh-comm.cc:970-1397 | sender and receiver list their copies of a node at the same place |
| `LuleshMessages.AlignRoundsUp` | examples/lulesh/lulesh.h:143-144 | rounding up to a multiple of the pad |
| `LuleshMessages.CommRecv` | examples/lulesh/lulesh-comm.cc:59-359 | the receives posted by the counters are those of the specification: peers, slots, lengths, in order |
| `LuleshMessages.PostedByRank` | examples/lulesh/lulesh-comm.cc:111-359 | with the flag off a rank receives from higher ranks only and sends to lower ranks only; with it on, to and from all neighbours |
| `LuleshMessages.ReceiveHasItsSend` | examples/lulesh/lulesh-comm.cc:111-359 | every posted receive has the send of its neighbour, naming each other, with equal length |
| `LuleshMessages.SendHasItsReceive` | examples/lulesh/lulesh-comm.cc:415-917 | every send has its receive |
| `LuleshMessages.OneBlockPerPeer` | examples/lulesh/lulesh-comm.cc:111-359 | a rank names each peer in one block only |
| `LuleshMessages.ReceivesMatchSends` | examples/lulesh/lulesh-comm.cc:59-917 | between any two ranks receives and sends correspond one to one with equal lengths, for every grid, both flags and `planeOnly` |
| `LuleshMessages.MessageFitsSlot` | examples/lulesh/lulesh-init.cc:446-448 | a message fits the slot its kind is given |
| `LuleshMessages.BuffersHoldNeighbours` | examples/lulesh/lulesh-init.cc:451-480 | the buffer size is the sum of the widest slots of the neighbours that exist |
| `LuleshMessages.MessageInBuffer` | examples/lulesh/lulesh-init.cc:446-480 | every message a rank posts, also a single one, lies inside its buffer, for up to six fields |
| `LuleshMessages.MessagesAreApart` | examples/lulesh/lulesh-comm.cc:113-359 | no two messages of a rank overlap, and they lie inside the buffer, for up to six fields |
| `LuleshHalo.Pack` | examples/lulesh/lulesh-comm.cc:418-916 | a block fills its slot with the values of its side, field by field, and leaves the slots before it alone |
| `LuleshHalo.CommSend` | examples/lulesh/lulesh-comm.cc:365-917 | the sends are those of the specification, and when the rank waits every message is intact in its slot |
| `LuleshHalo.AddMessage` | examples/lulesh/lulesh-comm.cc:980-996 | a message is added to the nodes of its side; no other node changes |
| `LuleshHalo.CommSBN` | examples/lulesh/lulesh-comm.cc:925-1397 | every node gains what the messages of its sides brought |
| `LuleshHalo.NeighbourHolds` | examples/lulesh/lulesh-comm.cc:973-1397 | a neighbour has a copy of a node exactly when the node is on the side facing it |
| `LuleshHalo.SharersAreNear` | examples/lulesh/lulesh-comm.cc:973-1397 | the copies of all ranks of the grid are those of the rank and its 26 neighbours |
| `LuleshHalo.BlocksReachAll` | examples/lulesh/lulesh-comm.cc:973-1397 | the 26 blocks bring every neighbour's copy once |
| `LuleshHalo.DeliveredByBlock` | examples/lulesh/lulesh-comm.cc:111-359 | on a network that matches receives and sends by the ranks they name, the receive of every block gets the message of the opposite block of its neighbour |
| `LuleshHalo.EveryCopyHoldsTheSum` | examples/lulesh/lulesh-comm.cc:925-1397 | after all ranks have exchanged over such a network, every copy of a mesh node holds the sum of the original copies over all ranks that have one |
| `LuleshHalo.CopiesAgree` | examples/lulesh/lulesh.cc:866-868 | so all copies of a shared node agree |
| `LuleshHalo.UnsharedIsUnchanged` | examples/lulesh/lulesh-comm.cc:925-1397 | a node no other rank shares keeps its value |
| `LuleshGhosts.FaceBitsAreSeparate` | examples/lulesh/lulesh.h:102-130 | adding a mark of one face to the flags of an element leaves the bits of every other face alone |
| `LuleshGhosts.SetupElementConnectivities` | examples/lulesh/lulesh-init.cc:667-710 | the six link tables of the box |
| `LuleshGhosts.BaseLinkIsNeighbour` | examples/lulesh/lulesh-init.cc:667-710 | away from the sides a link leads to the neighbouring element |
| `LuleshGhosts.BaseLinkAtEnds` | examples/lulesh/lulesh-init.cc:684-707 | a link leads back to its own element exactly in the first slab below or the last slab above |
| `LuleshGhosts.ElementOfFace` | examples/lulesh/lulesh-init.cc:783-848 | the element indices of the boundary loops run over the six sides, in the order of the messages |
| `LuleshGhosts.GhostOffsets` | examples/lulesh/lulesh-init.cc:736-779 | the ghost offsets of the faces that have a neighbour, in order |
| `LuleshGhosts.SetupBoundaryConditions` | examples/lulesh/lulesh-init.cc:717-855 | at a side the links point to the face's ghost values and the marks say communication, symmetry or free surface; elsewhere the links stay and there is no mark |
| `LuleshGhosts.CommMonoQ` | examples/lulesh/lulesh-comm.cc:1890-2066 | the ghost values of each face are what its message brought, and the rank's own values do not change |
| `LuleshGhosts.HolderIsUnique` | examples/lulesh/lulesh-init.cc:863-930 | every element of the mesh of all ranks is held by one rank |
| `LuleshGhosts.LookUpInside` | examples/lulesh/lulesh.cc:1416-1420 | away from the sides the look-up finds the neighbour in the same box |
| `LuleshGhosts.LookUpGhost` | examples/lulesh/lulesh.cc:1416-1420 | at a side with a rank behind it the look-up finds the neighbour's value in the ghosts |
| `LuleshGhosts.LookUpBoundary` | examples/lulesh/lulesh.cc:1420-1421 | symmetry or free surface is marked exactly where the mesh ends |
| `LuleshGhosts.LookUpFindsNeighbour` | examples/lulesh/lulesh.cc:1416-1513 | for every rank, element, face and field the guarded look-up yields the value at the true neighbour in the one global mesh, the element's own at a symmetry plane, zero at a free surface, and never an invalid mask |
| `PythonProfiler.Profiler.UpdateIgnoreStackDepth` | source/python/libpyomnitrace.cpp:332-339 | the depth counts calls and returns, not those of C functions |
| `PythonProfiler.Profiler.FindMatching` | source/python/libpyomnitrace.cpp:404-412 | true exactly when one of the patterns matches |
| `PythonProfiler.FiltersAreExact` | source/python/libpyomnitrace.cpp:404-494 | the filters sort every frame, from the sets of patterns alone, into exactly one of three: it opens a region, it hides its subtree, or it is passed over |
| `PythonProfiler.Profiler.ProfilerFunction` | source/python/libpyomnitrace.cpp:316-548 | one event changes records, depth and output exactly as the specified transition, every filter branch included |
| `PythonProfiler.Profiler.ProfilerCall` | source/python/libpyomnitrace.cpp:501-525 | an accepted call records its closing action and opens its region |
| `PythonProfiler.Profiler.ProfilerReturn` | source/python/libpyomnitrace.cpp:528-534 | an accepted return closes the region recorded last; with no record it does nothing |
| `PythonProfiler.IgnoredCalls` | source/python/libpyomnitrace.cpp:341-348 | while an excluded function is open, properly nested calls leave no trace at all |
| `PythonProfiler.RegionsAreNested` | source/python/libpyomnitrace.cpp:501-534 | the regions of any call tree open and close in proper nesting |
| `PythonProfiler.CallsWhileOwing` | source/python/libpyomnitrace.cpp:341-353 | the exact output from any non-positive depth: the depth is the number of unmatched returns, and excluded calls pay them back before they hide anything |
| `PythonProfiler.NestedCalls` | source/python/libpyomnitrace.cpp:316-548 | a properly nested trace from a balanced state emits exactly the recursive meaning of its call tree, and records and depth return to their start |
| `PythonProfiler.CallMeans` | source/python/libpyomnitrace.cpp:404-534 | from a balanced state a frame that opens a region puts it around the regions of its inner calls, one excluded by the user leaves nothing, and every other one - excluded by default, not among those wanted, internal, in an unwanted file, without a label - leaves just its inner calls |
| `PythonProfiler.NativeCallMeans` | source/python/libpyomnitrace.cpp:356-362 | a C function is traced only on demand, by the filters of its caller, and never hides its subtree |
| `PythonProfiler.ProfilingFromInside` | source/python/libpyomnitrace.cpp:341-353 | profiling that starts inside open calls - calls, the return of an open frame, calls, and so on - emits for each stretch the regions its calls have with the excluded frames returned from so far, and ends that many levels in debt |
| `PythonProfiler.ExclusionHolds` | source/python/libpyomnitrace.cpp:432-446 | a function excluded by the user hides its whole subtree if and only if the depth is not negative when it is called |
| `PythonProfiler.UnmatchedReturn` | source/python/libpyomnitrace.cpp:438-444 | a concrete event that makes the depth negative: the return of an excluded function whose call was not seen |
| `CausalEnvironments.Fill` | source/bin/omnitrace-causal/impl.cpp:786-808 | the list becomes one copy per value, value by value; an empty choice leaves it alone |
| `CausalEnvironments.ValueIsGiven` | source/bin/omnitrace-causal/impl.cpp:795-799 | a value is set as given, or between two quotation marks exactly when quoting is asked for |
| `CausalEnvironments.CombinationSets` | source/bin/omnitrace-causal/impl.cpp:793-807 | a combination sets exactly the variables with values, each to the value its digit selects, with quotation marks around it if and only if the variable asks for them |
| `CausalEnvironments.CausalEnvs` | source/bin/omnitrace-causal/impl.cpp:782-855 | rounds * product of the counts environments; the entry at position k is the mixed-radix decoding of k |
| `CausalEnvironments.DigitsDetermine` | source/bin/omnitrace-causal/impl.cpp:835-843 | a number has given digits if and only if its rest is the number they encode |
| `CausalEnvironments.EachCombinationOncePerRound` | source/bin/omnitrace-causal/impl.cpp:848-855 | in every iteration each tuple of choices stands at exactly one position |
| `Binning.WhichProcessOwnsThisNumber` | examples/mpi/all2all.c:38-42 | the owner of a number in [0, 1) is a process of the world |
| `Binning.OneHasNoOwner` | examples/mpi/all2all.c:38-42 | the truncated product of a number in [0, 1] names a process if and only if the number is below one |
| `Binning.CreateRandomNumbers` | examples/mpi/all2all.c:17-33 | every number is the second draw of its pair, scaled; the first draw, which the code lowers when it is the largest, does not enter |
| `Binning.NumberTimesMax` | examples/mpi/all2all.c:30 | a number times RAND_MAX is its second draw |
| `Binning.OneIsDrawn` | examples/mpi/all2all.c:23-31 | a number is one exactly when the second draw of its pair is RAND_MAX |
| `Binning.GeneratorStaysBelowOne` | examples/mpi/all2all.c:15-31 | the numbers lie in [0, 1) if and only if no second draw is RAND_MAX |
| `Binning.OwnerIsBin` | examples/mpi/all2all.c:38-56 | a process owns a number if and only if the number lies in its bin |
| `Binning.GetSendAmountsPerProc` | examples/mpi/all2all.c:60-78 | the counts are the numbers each process owns |
| `Binning.PrefixSum` | examples/mpi/all2all.c:99-110 | the offsets are the running totals |
| `Binning.Sum` | examples/mpi/all2all.c:113-123 | the sum of an array |
| `Binning.SegmentIsOwned` | examples/mpi/all2all.c:193-224 | in a sorted array the segment given by counts and offsets holds exactly the target's numbers |
| `Binning.CountOfPermutation` | examples/mpi/all2all.c:193-218 | sorting does not change the counts, so counts made before the sort still fit |
| `Binning.ReceivedLength` | examples/mpi/all2all.c:208-213 | the segments received tile the buffer allocated for them |
| `Binning.ReceivedAt` | examples/mpi/all2all.c:208-224 | the segment of process p stands in the buffer from p's offset on, in order |
| `Binning.Alltoallv` | examples/mpi/all2all.c:220-224 | the exchange fills a process's buffer with its segments of all processes, in rank order |
| `Binning.ReceivedInBin` | examples/mpi/all2all.c:143-160 | everything a process receives lies in its own bin |
| `Binning.ExchangeConserves` | examples/mpi/all2all.c:220-224 | no number is lost, duplicated or invented by the exchange |
| `Binning.BinAll` | examples/mpi/all2all.c:190-234 | the whole program: every process ends with numbers of its own bin only, and the multiset over all processes is unchanged |

## Left out

- Rounding, `sqrt`, `cbrt`, `pow`: reals are exact, `ratio` is an arbitrary real, the residual norm is kept squared.
- Weak memory: the flags, the grid and the scratch arrays are sequentially consistent; `omp flush` has no counterpart.
- Unrolling: the 5x5 elimination is written as loops over pivots and rows, and the five unknowns of a cell are one value.
- Coefficients: the blocks that `jacld` and `jacu` compute are arbitrary inputs; only when each thread forms them is modelled.
- The OpenMP work sharing inside `conj_grad` and `rhs`, and the LU right-hand sides, norms and verification.
- LuBlocks.SolveInverts: assumes that no pivot of the elimination is zero, as the code does by dividing.
- LuWavefront.PipelineIsSerialSweep: a cell's update is one step, which `LuWavefront.NoDataRace` justifies; threads are given by the rows they own, which both loops of a plane share.
- CgSparse.Sparse: all rows at once (`firstrow` 0, `lastrow` n - 1), the vectors as sequences instead of fixed-width arrays, and arrays large enough for what the guard lets through.
- CgVectors.Sprnvc: nz at most n and nn1 a power of two below 2^31 and not below n, as `makea` calls it.
- CgMatrix.MakeA: n at most 2^30, so that doubling nn1 stays in an int, and NONZER at most n.
- CgSolver.ConjGrad25: assumes that no division of the 25 iterations is by zero; `ConjGrad.DefinitenessIsExact` says when that is so. Whether the assembled matrix is definite is not part of this model: rcond - shift is negative, so no sign of the form is assumed.
- Randlc.Generator.Vranlc: a seed and a multiplier between 0 and 2^46, as its documentation asks.
- LULESH messages: the 26 blocks of `CommRecv`, `CommSend` and `CommSBN` differ only in direction, guard and slot, so they are one table and one loop; the loop over a whole plane is written as loops over its rows and columns.
- LULESH delivery: MPI matches messages by rank and tag and delivers them intact (`LuleshHalo.Delivered`); `LuleshMessages.ReceivesMatchSends` shows that at most one message per pair and exchange is under way.
- LuleshHalo.CommSBN: for exchanges in which `CommRecv` posted all receives and not only faces, as all callers do.
- LuleshHalo.EveryCopyHoldsTheSum: boxes with at least two nodes along every axis, that is, meshes with at least one element per rank.
- LuleshGhosts.SetupBoundaryConditions: the three mark bits of a face are kept as a set per face; `LuleshGhosts.FaceBitsAreSeparate` relates this to the masks. The six link arrays are rows of one table.
- LuleshGhosts.CommMonoQ: one running ghost offset for the three fields, which advance together.
- `CommSyncPosVel`: its messages follow the same tables, but mixed edge messages overwrite face data, so no owner's value is what all copies end with.
- LULESH region index sets, hourglass and equation-of-state kernels, time stepping, and the shape function derivatives whose normals `CalcElemNodeNormals` overwrites.
- LuleshCorners.Gather: the parallel reduction adds in list order; `LuleshCorners.SumInAnyOrder` shows the order does not matter.
- Binning.BinAll: numbers in [0, 1), as the comment on the generator promises; the library sort is any sorted permutation; printing and `verify_bin_nums` are only represented by the property they check. `rand` is a sequence of draws of at least 0 and at most RAND_MAX.
- PythonProfiler.Profiler.ProfilerFunction: regular expressions are an abstract predicate, the label an abstract function of the frame, and the paused state is not modelled.
- PythonProfiler.NestedCalls: every call returns; exceptions of C functions, which reach the callback as ignored events, are not part of the traces.
- CausalEnvironments.CausalEnvs: the default environment and the configuration files written afterwards are not part of this model.
- Coverage merging, `omnitrace-avail`, argument parsing, process launching, GPU kernels and the small averaging and ping-pong examples.
